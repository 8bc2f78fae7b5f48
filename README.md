# imagedisplay: a verified model of the colour-to-text pipeline

`imagedisplay.py` shows pictures and animations in a terminal. Each frame
is first quantized onto a fixed table of 24 terminal colours and resized to
the terminal. Then every cell becomes a full-block glyph styled with a
colorama code, and a `TerminalImage` plays the frames with their
durations. This project models the parts of that pipeline that are pure
logic and proves what they promise:

- `ansi.dfy` (module `Ansi`) holds the colorama styling as datatypes: eight
  `Fore` colours, three `Style` intensities, and the ANSI text of each.
- `palette.dfy` (module `Palette`) holds the `COLORS` table, `color()`, the
  padded `PALETTE_DATA`, and the 16 × 16 `PALETTE` index image. The image is
  a class over a two-dimensional array, filled by nested loops.
- `render.dfy` (module `Render`) holds the rendering loop of `image_to_str`
  over a grid of palette indices.
  - The closed form it is proved against is `Rendered`.
  - The proofs cover the run-length rule (a cell repeating the previous
    styled glyph is printed bare) and the shape of the text.
  - They also cover what an ANSI terminal draws, `Paint`. The rendition
    in force is a foreground colour plus separate bold and faint
    attributes. SGR 30-37 sets the colour, SGR 1 and SGR 2 turn bold and
    faint on, SGR 22 turns both off, and SGR 0 resets everything. Under
    this semantics the run-length saving is invisible.
  - Every block gets its own index's foreground colour. The intensities
    accumulate, though: a dim block written right after a bright one is
    drawn bold and faint at once. The fully styled text does the same.
- `terminal_image.dfy` (module `Terminal`) holds the `TerminalImage` class:
  - its parallel `frames` and `durations` lists;
  - `chars`, `len` and `str`;
  - `show` with a non-negative `repeat`, returning the trace of sleeps and
    prints it performs.
- `wrappers.dfy` (module `Wrappers`) holds `Option`.

Rendered text is a sequence of tokens (a style code, the block, a newline,
the reset); `Render.Spell` turns tokens into the characters printed.
Durations are integer milliseconds.

## Model

| member | source | states |
|---|---|---|
| Ansi.ForeText | imagedisplay.py:15-38 | each `Fore` escape is ESC [ 3n m, five characters |
| Ansi.IntensityText | imagedisplay.py:15-38 | each `Style` escape is ESC [ … m |
| Ansi.CodeTextInjective | imagedisplay.py:15-38 | the 24 colour × intensity codes have pairwise different texts (both directions) |
| Palette.Color | imagedisplay.py:78-80 | `color(i)` is defined exactly for i < 24 and yields the code sitting at table position i |
| Palette.ColorIsTableEntry | imagedisplay.py:14-39 | `color(i)` is the style code `COLORS[i]` pairs with its RGB |
| Palette.ColorInjective | imagedisplay.py:78-80 | distinct indices get distinct style codes, and conversely |
| Palette.CodeIndexInjective | imagedisplay.py:14-39 | a style code's table position determines the code |
| Palette.ColorsAreBytes | imagedisplay.py:14-39 | every RGB component of the table is below 256 |
| Palette.PaletteDataSlots | imagedisplay.py:52-53 | for any non-empty table: 3 values per slot; the table's colours in order; then the first colour up to slot 255 |
| Palette.PaletteLayout | imagedisplay.py:52-53 | `PALETTE_DATA` has 768 values; slots 0..23 are `COLORS` in order; slots 24..255 are (30, 34, 36); slot 255 equals slot 0 |
| Palette.PaletteDataBytes | imagedisplay.py:52-53 | 8-bit table colours give 8-bit palette values |
| Palette.GridIsBijection | imagedisplay.py:56-58 | (x, y) ↦ x + 16y maps the 16 × 16 grid onto 0..255 and has an inverse both ways |
| Palette.PaletteImage.constructor | imagedisplay.py:54 | a fresh 16 × 16 image, every pixel at the default index 0, with an empty palette |
| Palette.PaletteImage.PutPalette | imagedisplay.py:55 | the palette becomes the given data |
| Palette.PaletteImage.PutPixel | imagedisplay.py:58 | that one pixel takes the value; every other pixel is unchanged |
| Palette.MakePalette | imagedisplay.py:52-58 | the image holds the padded palette data and pixel (x, y) holds x + 16y, for every pixel |
| Palette.PaletteImageResolves | imagedisplay.py:52-58 | each palette-image pixel resolves to its table colour, or to the first colour past the table |
| Render.ImageToText | imagedisplay.py:88-97 | the loop's output is the closed-form rendering `Rendered` |
| Render.RowToText | imagedisplay.py:91-95 | one pass of the inner loop emits row y of the cell grid and leaves `last` at the row's last glyph |
| Render.GlyphTextInjective | imagedisplay.py:93-94 | two indices print the same styled glyph exactly when they are equal |
| Render.DedupRule | imagedisplay.py:89-95 | the first cell is styled; a later cell is bare iff its index equals the previous one in row-major order, across row ends too; a styled cell carries its own code |
| Render.CellsAreBareOrOwnGlyph | imagedisplay.py:93-94 | every cell is the bare block or the styled glyph of its own index |
| Render.RenderCounts | imagedisplay.py:92-97 | `width * height` blocks, `height - 1` newlines, one reset, which is last |
| Render.RenderStartsStyled | imagedisplay.py:89-94 | a non-empty rendering begins with the styled glyph of the first cell |
| Render.JoinCounts | imagedisplay.py:96 | joining rows with newlines adds `rows - 1` newlines and keeps every block |
| Render.Apply | imagedisplay.py:93 | writing `Fore.X + Style.Y` sets the foreground; bright turns bold on and dim turns faint on, each keeping the other attribute; normal turns both off |
| Render.ApplyIdempotent | imagedisplay.py:94-95 | writing the code already just written changes nothing, which is why the bare block is safe |
| Render.PaintAppend | imagedisplay.py:96-97 | writing two texts in turn draws what each draws, the second from the styling the first leaves |
| Render.RowPaint | imagedisplay.py:93-95 | a row in which each cell, written after the one before, leaves the wanted rendition draws exactly those renditions |
| Render.GridPaint | imagedisplay.py:96 | the same holds across rows joined by newlines, the styling carrying over |
| Render.RenderPaintsColours | imagedisplay.py:88-97 | from the default rendition, the rendering draws every block exactly as the fully styled text does, in row-major order: the run-length saving is invisible |
| Render.PensShowOwnColour | imagedisplay.py:93-95 | every block is drawn in its own index's foreground colour, with bold on for bright, faint on for dim, and neither for normal |
| Render.IntensitiesAccumulate | imagedisplay.py:93-95 | in the grid `[[8, 6]]` the dim red block after the bright red one is drawn bold and faint at once |
| Terminal.RenderFrames | imagedisplay.py:117-123 | one frame text and one duration per source frame, in source order |
| Terminal.TerminalImage.constructor | imagedisplay.py:116-123 | `len` is the source frame count; `frames[i]` is frame i's rendering and `durations[i]` its `Duration` (the metadata duration, else 200 ms); `str` is the first frame's rendering |
| Terminal.SumLengths | imagedisplay.py:170-172 | every frame's length is at most the total |
| Terminal.SumLengthsConcat | imagedisplay.py:170-172 | the sum of the frame lengths is the length of all frames written together |
| Terminal.TerminalImage.Chars | imagedisplay.py:169-172 | `chars` is the length of all frames written together and bounds each frame's length |
| Terminal.TerminalImage.Length | imagedisplay.py:181-182 | `len` counts the durations too and is at least 1 |
| Terminal.TerminalImage.Played | imagedisplay.py:151-154 | all frames when animated, else the first alone; it starts with `str(image)` |
| Terminal.PassEvents | imagedisplay.py:162-164 | one pass is a sleep of each frame's duration and then its print, frame by frame, and nothing else |
| Terminal.PassPrints | imagedisplay.py:162-164 | one pass prints the frames in order and sleeps their durations in order |
| Terminal.RepeatedTrace | imagedisplay.py:161 | the prints and sleeps of repeated passes are those of one pass, repeated |
| Terminal.PlaybackPrints | imagedisplay.py:161-164 | n passes print the frames n times over, `n * k` prints in all, each after its frame's sleep |
| Terminal.StillShowsFirstFrame | imagedisplay.py:153-164 | a still showing prints the first frame, once per pass, and nothing else |
| Terminal.TerminalImage.Show | imagedisplay.py:148-164 | with the source's defaults (not animated, `repeat` 0): `repeat + 1` passes over the played frames; `(repeat + 1) * k` prints in frame order, each after its duration's sleep; only `str(image)` when not animated |

## Left out

- `compress`: quantization is a PIL call with its own nearest-colour metric. The renderer takes its result, a grid of indices below 24, as its precondition.
- `resize`, and `get_terminal_size` with the `- 2` margins: PIL and terminal I/O. The grid comes already sized, and its width is a parameter.
- `video_to_gif` and `TerminalImage.from_path`: ffmpeg subprocesses, file opening and temporary files.
- Writing and removing `palette.png`, `colorama.init()`, and the frame/time/chars progress line the constructor prints.
- Real sleeping and printing: `show` returns the events instead. A `Print` event stands for `print(f"\n\n{frame}")`, without the blank lines and the line end.
- Terminal.Duration: durations are integer milliseconds, not seconds from a float division by 1000.
- Terminal.TerminalImage.Show: requires `repeat >= 0`. The `repeat <= -1` branch loops forever by design. Each of its passes is the same `Pass` of the played frames, but the unbounded repetition is not modelled.
- The exception path of `show` that prints `Style.RESET_ALL` and re-raises: it depends on I/O failures.
- `__repr__` and the `__main__` command line.
- `__iter__`: iteration over the image is iteration over the `frames` field, which the class exposes directly.
- `__str__`: the function `Str` has no contract of its own. The constructor's and `Played`'s contracts state what it returns.
- Palette.Color: an index past the table gives `None`, where the program raises IndexError. Python's negative indices are not modelled, because a 'P' image's `getpixel` never returns a negative index.
- Render.Paint: models only the SGR attributes the program's codes touch: foreground, bold, faint, and the full reset. It follows the ANSI behaviour, where bold and faint are independent. It does not model how a particular terminal renders bold and faint together, or colorama's translation of the codes to Windows console calls.
- Render.ImageToText: the IndexError for an index of 24 or more is excluded by the precondition rather than modelled.
- Palette.Color is written in closed form, from the table's layout of eight colours × three intensities. `Palette.ColorIsTableEntry` proves it is the `COLORS` lookup.
- Terminal.TerminalImage.constructor: the source frames are taken as already decoded index grids. Frames are rendered one by one, as `ImageSequence.Iterator` yields them.
