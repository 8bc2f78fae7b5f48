/**
 * The terminal styling the program takes from colorama: eight foreground
 * colours, three intensities, the reset sequence and the block glyph.
 * A style code is the pair `Fore.X + Style.Y`; its text is the two ANSI
 * "select graphic rendition" sequences one after the other.
 */
module Ansi {

  /** colorama's `Fore` members that the palette uses. */
  datatype Fore = Black | Red | Green | Yellow | Blue | Magenta | Cyan | White

  /** colorama's `Style` intensities. */
  datatype Intensity = Dim | Normal | Bright

  /** `Fore.X + Style.Y`, the styling paired with one palette colour. */
  datatype StyleCode = StyleCode(fore: Fore, intensity: Intensity)

  /** `Fore.X`: ESC [ 3n m with n the colour's SGR number (Black = 30 … White = 37). */
  function ForeText(f: Fore): (s: string)
    ensures |s| == 5 && s[..3] == "\U{1B}[3" && s[4] == 'm'
  {
    match f
    case Black => "\U{1B}[30m"
    case Red => "\U{1B}[31m"
    case Green => "\U{1B}[32m"
    case Yellow => "\U{1B}[33m"
    case Blue => "\U{1B}[34m"
    case Magenta => "\U{1B}[35m"
    case Cyan => "\U{1B}[36m"
    case White => "\U{1B}[37m"
  }

  /** `Style.DIM`, `Style.NORMAL`, `Style.BRIGHT`. */
  function IntensityText(i: Intensity): (s: string)
    ensures 4 <= |s| <= 5 && s[..2] == "\U{1B}[" && s[|s| - 1] == 'm'
  {
    match i
    case Dim => "\U{1B}[2m"
    case Normal => "\U{1B}[22m"
    case Bright => "\U{1B}[1m"
  }

  /** The text of `Fore.X + Style.Y`. */
  function CodeText(c: StyleCode): (s: string)
  {
    ForeText(c.fore) + IntensityText(c.intensity)
  }

  /** `Style.RESET_ALL`. */
  const RESET_ALL: string := "\U{1B}[0m"

  /** `PIXEL`, the full block U+2588. */
  const PIXEL: string := "\U{2588}"

  /** Different colours have different `Fore` escapes: the digit after ESC [ 3 tells them apart. */
  lemma ForeTextInjective(f: Fore, g: Fore)
    ensures ForeText(f) == ForeText(g) <==> f == g
  {
    if ForeText(f) == ForeText(g) {
      assert ForeText(f)[3] == ForeText(g)[3];
    }
  }

  /** Different intensities have different `Style` escapes. */
  lemma IntensityTextInjective(i: Intensity, j: Intensity)
    ensures IntensityText(i) == IntensityText(j) <==> i == j
  {
    if IntensityText(i) == IntensityText(j) {
      assert IntensityText(i)[2] == IntensityText(j)[2];
    }
  }

  /**
   * All 8 × 3 style codes have different texts, so comparing the styled
   * strings, as the renderer does, is comparing the codes.
   */
  lemma CodeTextInjective(c: StyleCode, d: StyleCode)
    ensures CodeText(c) == CodeText(d) <==> c == d
  {
    if CodeText(c) == CodeText(d) {
      var s := CodeText(c);
      assert ForeText(c.fore) == s[..5] == ForeText(d.fore);
      assert IntensityText(c.intensity) == s[5..] == IntensityText(d.intensity);
      ForeTextInjective(c.fore, d.fore);
      IntensityTextInjective(c.intensity, d.intensity);
    }
  }
}
