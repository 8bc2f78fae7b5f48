/**
 * The fixed colour table and the 256-slot palette image built from it at
 * start-up. The table pairs a representative RGB colour with the terminal
 * style code that displays it; the palette image is what the quantizer maps
 * every picture onto.
 */
module Palette {
  import opened Wrappers
  import opened Ansi

  /** An RGB triple; every component of the table is an 8-bit value. */
  datatype Rgb = Rgb(r: nat, g: nat, b: nat)

  /** One row of `COLORS`: a representative colour and the styling that shows it. */
  datatype Entry = Entry(rgb: Rgb, code: StyleCode)

  /** The `COLORS` table, in the program's order: eight colours, each dim, normal and bright. */
  const COLORS: seq<Entry> := [
    Entry(Rgb(30, 34, 36), StyleCode(Black, Dim)),
    Entry(Rgb(10, 39, 53), StyleCode(Black, Normal)),
    Entry(Rgb(85, 87, 87), StyleCode(Black, Bright)),
    Entry(Rgb(160, 160, 160), StyleCode(White, Dim)),
    Entry(Rgb(220, 220, 220), StyleCode(White, Normal)),
    Entry(Rgb(255, 255, 255), StyleCode(White, Bright)),
    Entry(Rgb(88, 0, 0), StyleCode(Red, Dim)),
    Entry(Rgb(204, 0, 0), StyleCode(Red, Normal)),
    Entry(Rgb(239, 41, 41), StyleCode(Red, Bright)),
    Entry(Rgb(52, 103, 4), StyleCode(Green, Dim)),
    Entry(Rgb(78, 154, 6), StyleCode(Green, Normal)),
    Entry(Rgb(138, 226, 52), StyleCode(Green, Bright)),
    Entry(Rgb(131, 107, 0), StyleCode(Yellow, Dim)),
    Entry(Rgb(169, 160, 0), StyleCode(Yellow, Normal)),
    Entry(Rgb(252, 233, 79), StyleCode(Yellow, Bright)),
    Entry(Rgb(34, 67, 109), StyleCode(Blue, Dim)),
    Entry(Rgb(52, 101, 164), StyleCode(Blue, Normal)),
    Entry(Rgb(173, 127, 168), StyleCode(Blue, Bright)),
    Entry(Rgb(90, 60, 90), StyleCode(Magenta, Dim)),
    Entry(Rgb(125, 80, 125), StyleCode(Magenta, Normal)),
    Entry(Rgb(190, 130, 190), StyleCode(Magenta, Bright)),
    Entry(Rgb(4, 101, 103), StyleCode(Cyan, Dim)),
    Entry(Rgb(6, 152, 154), StyleCode(Cyan, Normal)),
    Entry(Rgb(52, 226, 226), StyleCode(Cyan, Bright))
  ]

  /** Number of slots of an indexed ('P' mode) image's palette. */
  const SLOTS: nat := 256

  /** Side of the square palette image. */
  const SIDE: nat := 16

  // ---------------------------------------------------------------------
  // color(): palette index -> style code
  // ---------------------------------------------------------------------

  /** Number of entries of `COLORS` (see `ColorCount`). */
  const COLOR_COUNT: nat := 24

  /**
   * `color(pixel)`: the style code of the table entry at a palette index,
   * read off the table's layout (eight colours in table order, each dim,
   * normal, bright); `ColorIsTableEntry` shows it is `COLORS[pixel]`'s code.
   * Indices past the table have no entry (the program raises IndexError).
   */
  function Color(pixel: nat): (r: Option<StyleCode>)
    ensures r.Some? <==> pixel < COLOR_COUNT
    ensures r.Some? ==> CodeIndex(r.value) == pixel
  {
    if pixel < COLOR_COUNT then Some(StyleCode(ForeAt(pixel / 3), IntensityAt(pixel % 3))) else None
  }

  /** The k-th foreground colour of the table: black, white, red, green, yellow, blue, magenta, cyan. */
  function ForeAt(k: nat): (f: Fore)
    ensures k < 8 ==> ForeRank(f) == k
  {
    if k == 0 then Black
    else if k == 1 then White
    else if k == 2 then Red
    else if k == 3 then Green
    else if k == 4 then Yellow
    else if k == 5 then Blue
    else if k == 6 then Magenta
    else Cyan
  }

  /** The k-th intensity of a colour's three rows: dim, normal, bright. */
  function IntensityAt(k: nat): (i: Intensity)
    ensures k < 3 ==> IntensityRank(i) == k
  {
    if k == 0 then Dim else if k == 1 then Normal else Bright
  }

  /** Position of a foreground colour in the table (black, white, red, …, cyan). */
  function ForeRank(f: Fore): (rank: nat)
  {
    match f
    case Black => 0
    case White => 1
    case Red => 2
    case Green => 3
    case Yellow => 4
    case Blue => 5
    case Magenta => 6
    case Cyan => 7
  }

  /** Position of an intensity within a colour's three rows (dim, normal, bright). */
  function IntensityRank(i: Intensity): (rank: nat)
  {
    match i
    case Dim => 0
    case Normal => 1
    case Bright => 2
  }

  /** The table index a style code sits at, read off its colour and intensity. */
  function CodeIndex(c: StyleCode): (index: nat)
  {
    3 * ForeRank(c.fore) + IntensityRank(c.intensity)
  }

  /** Distinct style codes sit at distinct indices. */
  lemma CodeIndexInjective(c: StyleCode, d: StyleCode)
    ensures CodeIndex(c) == CodeIndex(d) <==> c == d
  {
  }

  /** Entry i of `COLORS` sits at the position its style code names, and its colour is 8-bit. */
  predicate EntryInPlace(i: nat)
    requires i < |COLORS|
  {
    CodeIndex(COLORS[i].code) == i &&
    COLORS[i].rgb.r < 256 && COLORS[i].rgb.g < 256 && COLORS[i].rgb.b < 256
  }

  /** Black, white, red and green: the first twelve entries, checked against the literal. */
  lemma FirstHalfInPlace()
    ensures forall i :: 0 <= i < 12 ==> EntryInPlace(i)
  {
  }

  /** Yellow, blue, magenta and cyan: the last twelve entries, checked against the literal. */
  lemma SecondHalfInPlace()
    ensures forall i :: 12 <= i < 24 ==> EntryInPlace(i)
  {
  }

  lemma ColorCount()
    ensures |COLORS| == COLOR_COUNT
  {
  }

  /** `color(i)` is the style code that `COLORS` pairs with entry i. */
  lemma ColorIsTableEntry(i: nat)
    requires i < |COLORS|
    ensures Color(i) == Some(COLORS[i].code)
  {
    ColorCount();
    FirstHalfInPlace();
    SecondHalfInPlace();
    assert EntryInPlace(i);
    CodeIndexInjective(Color(i).value, COLORS[i].code);
  }

  /** Distinct palette indices give distinct style codes, and conversely. */
  lemma ColorInjective(i: nat, j: nat)
    requires i < COLOR_COUNT && j < COLOR_COUNT
    ensures Color(i) == Color(j) <==> i == j
  {
  }

  /** Every component of the table is an 8-bit value. */
  lemma ColorsAreBytes()
    ensures forall i :: 0 <= i < |COLORS| ==>
      COLORS[i].rgb.r < 256 && COLORS[i].rgb.g < 256 && COLORS[i].rgb.b < 256
  {
    FirstHalfInPlace();
    SecondHalfInPlace();
    assert forall i :: 0 <= i < |COLORS| ==> EntryInPlace(i);
  }

  // ---------------------------------------------------------------------
  // PALETTE_DATA: flattened table padded to 256 slots
  // ---------------------------------------------------------------------

  /** `[c for rgb, _ in colors for c in rgb]`. */
  function Flatten(colors: seq<Entry>): (d: seq<nat>)
  {
    if colors == [] then []
    else [colors[0].rgb.r, colors[0].rgb.g, colors[0].rgb.b] + Flatten(colors[1..])
  }

  /** `[*rgb] * n` for a count n; a negative count gives the empty list. */
  function Repeat(rgb: Rgb, n: int): (d: seq<nat>)
    decreases if n < 0 then 0 else n
  {
    if n <= 0 then [] else [rgb.r, rgb.g, rgb.b] + Repeat(rgb, n - 1)
  }

  /** `PALETTE_DATA`: the table's RGB values, then the first colour repeated up to 256 slots. */
  function PaletteData(colors: seq<Entry>): (d: seq<nat>)
    requires |colors| >= 1
  {
    Flatten(colors) + Repeat(colors[0].rgb, SLOTS - |colors|)
  }

  /** The program's palette data, built from `COLORS`. */
  const PALETTE_DATA: seq<nat> := PaletteData(COLORS)

  /** The colour a palette stores in slot i: three consecutive values. */
  function Slot(data: seq<nat>, i: nat): (rgb: Rgb)
    requires 3 * i + 2 < |data|
  {
    Rgb(data[3 * i], data[3 * i + 1], data[3 * i + 2])
  }

  lemma {:induction false} FlattenSlots(colors: seq<Entry>)
    ensures |Flatten(colors)| == 3 * |colors|
    ensures forall i :: 0 <= i < |colors| ==> Slot(Flatten(colors), i) == colors[i].rgb
  {
    if colors != [] {
      FlattenSlots(colors[1..]);
      var d := Flatten(colors);
      forall i | 0 <= i < |colors|
        ensures Slot(d, i) == colors[i].rgb
      {
        if i > 0 {
          assert Slot(d, i) == Slot(Flatten(colors[1..]), i - 1);
        }
      }
    }
  }

  lemma {:induction false} RepeatSlots(rgb: Rgb, n: int)
    ensures |Repeat(rgb, n)| == 3 * (if n < 0 then 0 else n)
    ensures forall i :: 0 <= i < n ==> Slot(Repeat(rgb, n), i) == rgb
  {
    if n > 0 {
      RepeatSlots(rgb, n - 1);
      var d := Repeat(rgb, n);
      forall i | 0 <= i < n
        ensures Slot(d, i) == rgb
      {
        if i > 0 {
          assert Slot(d, i) == Slot(Repeat(rgb, n - 1), i - 1);
        }
      }
    }
  }

  /**
   * Layout of `PALETTE_DATA` for any non-empty table: three values per slot,
   * slots below the table's length hold the table's colours in order, and
   * every padding slot up to 255 holds the first colour.
   */
  lemma PaletteDataSlots(colors: seq<Entry>)
    requires |colors| >= 1
    ensures |PaletteData(colors)| == 3 * (if |colors| < SLOTS then SLOTS else |colors|)
    ensures forall i :: 0 <= i < |colors| ==> Slot(PaletteData(colors), i) == colors[i].rgb
    ensures forall i :: |colors| <= i < SLOTS ==> Slot(PaletteData(colors), i) == colors[0].rgb
  {
    var f := Flatten(colors);
    var p := Repeat(colors[0].rgb, SLOTS - |colors|);
    FlattenSlots(colors);
    RepeatSlots(colors[0].rgb, SLOTS - |colors|);
    var d := PaletteData(colors);
    forall i | 0 <= i < |colors|
      ensures Slot(d, i) == colors[i].rgb
    {
      assert Slot(d, i) == Slot(f, i);
    }
    forall i | |colors| <= i < SLOTS
      ensures Slot(d, i) == colors[0].rgb
    {
      assert Slot(d, i) == Slot(p, i - |colors|);
    }
  }

  /**
   * The program's palette: 768 values, slots 0..23 are `COLORS` in order,
   * slots 24..255 are (30, 34, 36); so index 255 shows the colour of index 0.
   */
  lemma PaletteLayout()
    ensures |PALETTE_DATA| == 3 * SLOTS
    ensures forall i :: 0 <= i < |COLORS| ==> Slot(PALETTE_DATA, i) == COLORS[i].rgb
    ensures forall i :: |COLORS| <= i < SLOTS ==> Slot(PALETTE_DATA, i) == Rgb(30, 34, 36)
    ensures Slot(PALETTE_DATA, 255) == Slot(PALETTE_DATA, 0)
  {
    PaletteDataSlots(COLORS);
  }

  /** A table whose colours are 8-bit gives 8-bit palette data. */
  lemma {:induction false} PaletteDataBytes(colors: seq<Entry>)
    requires |colors| >= 1
    requires forall e :: e in colors ==> e.rgb.r < 256 && e.rgb.g < 256 && e.rgb.b < 256
    ensures forall v :: v in PaletteData(colors) ==> v < 256
  {
    FlattenBytes(colors);
    RepeatBytes(colors[0].rgb, SLOTS - |colors|);
  }

  lemma {:induction false} FlattenBytes(colors: seq<Entry>)
    requires forall e :: e in colors ==> e.rgb.r < 256 && e.rgb.g < 256 && e.rgb.b < 256
    ensures forall v :: v in Flatten(colors) ==> v < 256
  {
    if colors != [] {
      assert colors[0] in colors;
      FlattenBytes(colors[1..]);
    }
  }

  lemma {:induction false} RepeatBytes(rgb: Rgb, n: int)
    requires rgb.r < 256 && rgb.g < 256 && rgb.b < 256
    ensures forall v :: v in Repeat(rgb, n) ==> v < 256
    decreases if n < 0 then 0 else n
  {
    if n > 0 {
      RepeatBytes(rgb, n - 1);
    }
  }

  // ---------------------------------------------------------------------
  // The 16 × 16 palette image
  // ---------------------------------------------------------------------

  /** The pixel (x, y) of the palette image is given this index. */
  function GridIndex(x: nat, y: nat): (index: nat)
  {
    x + SIDE * y
  }

  /** The pixel that holds index i. */
  function GridCell(i: nat): (cell: (nat, nat))
  {
    (i % SIDE, i / SIDE)
  }

  lemma GridCellOfIndex(x: nat, y: nat)
    requires x < SIDE
    ensures GridCell(GridIndex(x, y)) == (x, y)
  {
    var i := x + SIDE * y;
    var q, r := i / SIDE, i % SIDE;
    assert i == SIDE * q + r && r < SIDE;
    assert SIDE * (q - y) == x - r;
  }

  /**
   * The palette image lists every index once: `GridIndex` maps the 16 × 16
   * pixels into 0..255 and `GridCell` is its inverse in both directions.
   */
  lemma GridIsBijection()
    ensures forall x: nat, y: nat :: x < SIDE && y < SIDE ==>
      GridIndex(x, y) < SLOTS && GridCell(GridIndex(x, y)) == (x, y)
    ensures forall i: nat :: i < SLOTS ==>
      GridCell(i).0 < SIDE && GridCell(i).1 < SIDE && GridIndex(GridCell(i).0, GridCell(i).1) == i
  {
    forall x: nat, y: nat | x < SIDE && y < SIDE
      ensures GridIndex(x, y) < SLOTS && GridCell(GridIndex(x, y)) == (x, y)
    {
      GridCellOfIndex(x, y);
    }
    forall i: nat | i < SLOTS
      ensures GridCell(i).0 < SIDE && GridCell(i).1 < SIDE && GridIndex(GridCell(i).0, GridCell(i).1) == i
    {
      assert i == SIDE * (i / SIDE) + i % SIDE;
    }
  }

  /**
   * `PALETTE`: a 16 × 16 indexed ('P' mode) image with its palette data;
   * `pixels[x, y]` is the index stored at column x, row y.
   */
  class PaletteImage {
    var palette: seq<nat>
    const pixels: array2<nat>

    /** `Image.new('P', (16, 16))`: every pixel holds the default index 0. */
    constructor ()
      ensures fresh(pixels)
      ensures pixels.Length0 == SIDE && pixels.Length1 == SIDE
      ensures forall x, y :: 0 <= x < SIDE && 0 <= y < SIDE ==> pixels[x, y] == 0
      ensures palette == []
    {
      palette := [];
      pixels := new nat[SIDE, SIDE]((x, y) => 0);
    }

    /** `putpalette(data)`. */
    method PutPalette(data: seq<nat>)
      modifies this
      ensures palette == data
    {
      palette := data;
    }

    /** `putpixel((x, y), value)`: only that pixel changes. */
    method PutPixel(x: nat, y: nat, value: nat)
      requires x < pixels.Length0 && y < pixels.Length1
      modifies pixels
      ensures pixels[x, y] == value
      ensures forall i, j :: 0 <= i < pixels.Length0 && 0 <= j < pixels.Length1 && (i, j) != (x, y) ==>
        pixels[i, j] == old(pixels[i, j])
    {
      pixels[x, y] := value;
    }

    /** The colour the palette gives an index. */
    function Resolve(index: nat): (rgb: Rgb)
      reads this
      requires 3 * index + 2 < |palette|
    {
      Slot(palette, index)
    }
  }

  /**
   * Build `PALETTE` from a colour table (the program passes `COLORS`): put
   * the padded palette data, then give pixel (x, y) the index x + 16 y, row
   * by row.
   */
  method MakePalette(colors: seq<Entry>) returns (img: PaletteImage)
    requires |colors| >= 1
    ensures fresh(img) && fresh(img.pixels)
    ensures img.pixels.Length0 == SIDE && img.pixels.Length1 == SIDE
    ensures img.palette == PaletteData(colors)
    ensures forall x, y :: 0 <= x < SIDE && 0 <= y < SIDE ==> img.pixels[x, y] == GridIndex(x, y)
  {
    img := new PaletteImage();
    var data := PaletteData(colors);
    img.PutPalette(data);
    for y := 0 to SIDE
      invariant img.palette == data && img.pixels.Length0 == SIDE && img.pixels.Length1 == SIDE
      invariant forall i, j :: 0 <= i < SIDE && 0 <= j < y ==> img.pixels[i, j] == GridIndex(i, j)
    {
      for x := 0 to SIDE
        invariant img.palette == data && img.pixels.Length0 == SIDE && img.pixels.Length1 == SIDE
        invariant forall i, j :: 0 <= i < SIDE && 0 <= j < y ==> img.pixels[i, j] == GridIndex(i, j)
        invariant forall i :: 0 <= i < x ==> img.pixels[i, y] == GridIndex(i, y)
      {
        img.PutPixel(x, y, x + y * SIDE);
      }
    }
  }

  /**
   * In the palette image every pixel resolves to a colour: the table's
   * colour for the first 24 pixels, the first colour for all the others.
   */
  lemma PaletteImageResolves(img: PaletteImage)
    requires img.pixels.Length0 == SIDE && img.pixels.Length1 == SIDE
    requires img.palette == PALETTE_DATA
    requires forall x, y :: 0 <= x < SIDE && 0 <= y < SIDE ==> img.pixels[x, y] == GridIndex(x, y)
    ensures forall x, y :: 0 <= x < SIDE && 0 <= y < SIDE ==>
      3 * img.pixels[x, y] + 2 < |img.palette| &&
      img.Resolve(img.pixels[x, y]) == if GridIndex(x, y) < |COLORS| then COLORS[GridIndex(x, y)].rgb else COLORS[0].rgb
  {
    PaletteLayout();
    GridIsBijection();
  }
}
