/**
 * Pictures: a fixed width-by-height grid of colours updated in place, the
 * pixel handles that address one cell of it, and the choice of save format.
 */
module Pictures {
  import opened Wrappers
  import opened Colors
  import opened Text

  /** A picture: `grid[x, y]` is the colour at column x, row y; its size never changes. */
  class Picture {
    const grid: array2<Color>
    var filename: string

    /** makeEmptyPicture: every cell holds `fill`, white unless given. */
    constructor (width: nat, height: nat, fill: Color := Color(255, 255, 255))
      ensures fresh(grid)
      ensures grid.Length0 == width && grid.Length1 == height
      ensures forall x, y :: 0 <= x < width && 0 <= y < height ==> grid[x, y] == fill
      ensures filename == "noFileName"
    {
      grid := new Color[width, height]((x, y) => fill);
      filename := "noFileName";
    }

    /** getWidth */
    function Width(): nat
    {
      grid.Length0
    }

    /** getHeight */
    function Height(): nat
    {
      grid.Length1
    }
  }

  /** A pixel handle: it refers to the picture and holds no colour of its own. */
  datatype Pixel = Pixel(pic: Picture, x: int, y: int)

  predicate InBounds(p: Pixel)
  {
    0 <= p.x < p.pic.Width() && 0 <= p.y < p.pic.Height()
  }

  /** Every cell other than (x, y) has the colour it had before. */
  twostate predicate UnchangedExcept(pic: Picture, x: int, y: int)
    reads pic.grid
  {
    forall i, j :: 0 <= i < pic.Width() && 0 <= j < pic.Height() && (i != x || j != y) ==>
      pic.grid[i, j] == old(pic.grid[i, j])
  }

  datatype PixelError = XOutOfRange | YOutOfRange

  /** getPixel: the x bound is checked before the y bound. */
  function GetPixel(pic: Picture, x: int, y: int): (r: Result<Pixel, PixelError>)
    ensures r == Err(XOutOfRange) <==> x < 0 || x >= pic.Width()
    ensures r == Err(YOutOfRange) <==> 0 <= x < pic.Width() && (y < 0 || y >= pic.Height())
    ensures r.Ok? ==> r.value == Pixel(pic, x, y) && InBounds(r.value)
  {
    if x < 0 || x >= pic.Width() then Err(XOutOfRange)
    else if y < 0 || y >= pic.Height() then Err(YOutOfRange)
    else Ok(Pixel(pic, x, y))
  }

  /** The handles of column x, top to bottom. */
  function Column(pic: Picture, x: int): (col: seq<Pixel>)
  {
    seq(pic.Height(), y => Pixel(pic, x, y))
  }

  /** Columns 0 .. n - 1 of the picture, left to right. */
  function Columns(pic: Picture, n: nat): (ps: seq<Pixel>)
  {
    if n == 0 then [] else Columns(pic, n - 1) + Column(pic, n - 1)
  }

  /** Column-major order: the handle of (x, y) sits at position x * height + y. */
  lemma {:induction false} ColumnsAt(pic: Picture, n: nat, x: int, y: int)
    requires 0 <= x < n && 0 <= y < pic.Height()
    ensures |Columns(pic, n)| == n * pic.Height()
    ensures x * pic.Height() + y < |Columns(pic, n)|
    ensures Columns(pic, n)[x * pic.Height() + y] == Pixel(pic, x, y)
  {
    var h := pic.Height();
    ColumnsLength(pic, n - 1);
    if x < n - 1 {
      ColumnsAt(pic, n - 1, x, y);
    } else {
      assert Columns(pic, n)[x * h + y] == Column(pic, x)[y];
    }
    assert n * h == (n - 1) * h + h;
  }

  lemma {:induction false} ColumnsLength(pic: Picture, n: nat)
    ensures |Columns(pic, n)| == n * pic.Height()
  {
    if n > 0 {
      ColumnsLength(pic, n - 1);
      assert n * pic.Height() == (n - 1) * pic.Height() + pic.Height();
    }
  }

  /** getPixels: every handle, x in the outer loop and y in the inner one. */
  method GetPixels(pic: Picture) returns (ps: seq<Pixel>)
    ensures ps == Columns(pic, pic.Width())
  {
    ps := [];
    var x := 0;
    while x < pic.Width()
      invariant 0 <= x <= pic.Width()
      invariant ps == Columns(pic, x)
    {
      var y := 0;
      while y < pic.Height()
        invariant 0 <= y <= pic.Height()
        invariant ps == Columns(pic, x) + Column(pic, x)[..y]
      {
        var p := GetPixel(pic, x, y);
        assert Column(pic, x)[..y + 1] == Column(pic, x)[..y] + [p.value];
        ps := ps + [p.value];
        y := y + 1;
      }
      assert Column(pic, x)[..y] == Column(pic, x);
      x := x + 1;
    }
  }

  /**
   * getPixels and getPixel agree: the handle at position x * height + y of
   * the list is the one getPixel(x, y) returns, and the list has one entry per cell.
   */
  lemma GetPixelsAgreesWithGetPixel(pic: Picture, x: int, y: int)
    requires 0 <= x < pic.Width() && 0 <= y < pic.Height()
    ensures |Columns(pic, pic.Width())| == pic.Width() * pic.Height()
    ensures GetPixel(pic, x, y) == Ok(Columns(pic, pic.Width())[x * pic.Height() + y])
  {
    ColumnsAt(pic, pic.Width(), x, y);
  }

  function GetColor(p: Pixel): Color
    requires InBounds(p)
    reads p.pic.grid
  {
    p.pic.grid[p.x, p.y]
  }

  function GetRed(p: Pixel): Channel
    requires InBounds(p)
    reads p.pic.grid
  {
    p.pic.grid[p.x, p.y].red
  }

  function GetGreen(p: Pixel): Channel
    requires InBounds(p)
    reads p.pic.grid
  {
    p.pic.grid[p.x, p.y].green
  }

  function GetBlue(p: Pixel): Channel
    requires InBounds(p)
    reads p.pic.grid
  {
    p.pic.grid[p.x, p.y].blue
  }

  /** setRed: only the red channel of this one pixel changes. */
  method SetRed(p: Pixel, red: int, mode: ColorMode)
    requires InBounds(p)
    modifies p.pic.grid
    ensures GetRed(p) == Normalize(red, mode.wrapAround)
    ensures GetGreen(p) == old(GetGreen(p)) && GetBlue(p) == old(GetBlue(p))
    ensures UnchangedExcept(p.pic, p.x, p.y)
  {
    var r := Normalize(red, mode.wrapAround);
    var color := GetColor(p);
    p.pic.grid[p.x, p.y] := Color(r, color.green, color.blue);
  }

  /** setGreen: only the green channel of this one pixel changes. */
  method SetGreen(p: Pixel, green: int, mode: ColorMode)
    requires InBounds(p)
    modifies p.pic.grid
    ensures GetGreen(p) == Normalize(green, mode.wrapAround)
    ensures GetRed(p) == old(GetRed(p)) && GetBlue(p) == old(GetBlue(p))
    ensures UnchangedExcept(p.pic, p.x, p.y)
  {
    var g := Normalize(green, mode.wrapAround);
    var color := GetColor(p);
    p.pic.grid[p.x, p.y] := Color(color.red, g, color.blue);
  }

  /** setBlue: only the blue channel of this one pixel changes. */
  method SetBlue(p: Pixel, blue: int, mode: ColorMode)
    requires InBounds(p)
    modifies p.pic.grid
    ensures GetBlue(p) == Normalize(blue, mode.wrapAround)
    ensures GetRed(p) == old(GetRed(p)) && GetGreen(p) == old(GetGreen(p))
    ensures UnchangedExcept(p.pic, p.x, p.y)
  {
    var b := Normalize(blue, mode.wrapAround);
    var color := GetColor(p);
    p.pic.grid[p.x, p.y] := Color(color.red, color.green, b);
  }

  /** setColor: the pixel takes the normalised triple; nothing else changes. */
  method SetColor(p: Pixel, color: (int, int, int), mode: ColorMode)
    requires InBounds(p)
    modifies p.pic.grid
    ensures GetColor(p) == MakeColor(color.0, color.1, color.2, mode.wrapAround)
    ensures UnchangedExcept(p.pic, p.x, p.y)
  {
    var r := Normalize(color.0, mode.wrapAround);
    var g := Normalize(color.1, mode.wrapAround);
    var b := Normalize(color.2, mode.wrapAround);
    p.pic.grid[p.x, p.y] := Color(r, g, b);
  }

  /** setAllPixelsToAColor: row by row, every pixel is set to `color`. */
  method SetAllPixelsToAColor(pic: Picture, color: (int, int, int), mode: ColorMode)
    modifies pic.grid
    ensures forall x, y :: 0 <= x < pic.Width() && 0 <= y < pic.Height() ==>
      pic.grid[x, y] == MakeColor(color.0, color.1, color.2, mode.wrapAround)
  {
    var c := MakeColor(color.0, color.1, color.2, mode.wrapAround);
    var y := 0;
    while y < pic.Height()
      invariant 0 <= y <= pic.Height()
      invariant forall i, j :: 0 <= i < pic.Width() && 0 <= j < y ==> pic.grid[i, j] == c
    {
      var x := 0;
      while x < pic.Width()
        invariant 0 <= x <= pic.Width()
        invariant forall i, j :: 0 <= i < pic.Width() && 0 <= j < y ==> pic.grid[i, j] == c
        invariant forall i :: 0 <= i < x ==> pic.grid[i, y] == c
      {
        var p := GetPixel(pic, x, y);
        SetColor(p.value, color, mode);
        x := x + 1;
      }
      y := y + 1;
    }
  }

  datatype ImageFormat = Jpeg | Png

  datatype SaveError = NoExtension | UnsupportedExtension

  /**
   * The format writePictureTo saves in, from the text after the last '.'
   * (compared case-sensitively); the save itself is not modelled.
   */
  function WriteFormat(filename: string): (r: Result<ImageFormat, SaveError>)
    ensures r == Err(NoExtension) <==> '.' !in filename
  {
    var i := RFind(filename, ".");
    if i == -1 then
      assert forall k | 0 <= k < |filename| :: filename[k] != '.' by {
        forall k | 0 <= k < |filename| ensures filename[k] != '.' {
          assert !OccursAt(filename, ".", k);
        }
      }
      Err(NoExtension)
    else
      assert filename[i] == '.' by { assert filename[i..i + 1] == "."; }
      var extension := filename[i..];
      if extension == ".jpg" || extension == ".jpeg" then Ok(Jpeg)
      else if extension == ".png" then Ok(Png)
      else Err(UnsupportedExtension)
  }

  /**
   * For an extension with a single '.', at its start, the text after the last
   * '.' of a name is that extension exactly when the name ends with it.
   */
  lemma LastDotSuffix(filename: string, extension: string)
    requires |extension| > 0 && extension[0] == '.' && '.' !in extension[1..]
    ensures EndsWith(filename, extension) <==>
      RFind(filename, ".") != -1 && filename[RFind(filename, ".")..] == extension
  {
    var i := RFind(filename, ".");
    if EndsWith(filename, extension) {
      var d := |filename| - |extension|;
      assert filename[d..d + 1] == ".";
      assert OccursAt(filename, ".", d);
      forall k | d < k < |filename| ensures !OccursAt(filename, ".", k) {
        assert filename[k] == extension[1..][k - d - 1];
      }
    }
  }

  /** writePictureTo accepts exactly the names ending in .jpg, .jpeg or .png. */
  lemma WriteFormatBySuffix(filename: string)
    ensures WriteFormat(filename) == Ok(Jpeg) <==>
      EndsWith(filename, ".jpg") || EndsWith(filename, ".jpeg")
    ensures WriteFormat(filename) == Ok(Png) <==> EndsWith(filename, ".png")
    ensures WriteFormat(filename) == Err(UnsupportedExtension) <==>
      '.' in filename && !EndsWith(filename, ".jpg") && !EndsWith(filename, ".jpeg")
      && !EndsWith(filename, ".png")
  {
    LastDotSuffix(filename, ".jpg");
    LastDotSuffix(filename, ".jpeg");
    LastDotSuffix(filename, ".png");
  }

  /** The extension match is case-sensitive, and other formats are refused. */
  lemma WriteFormatRefusals()
    ensures WriteFormat("out.PNG") == Err(UnsupportedExtension)
    ensures WriteFormat("out.gif") == Err(UnsupportedExtension)
    ensures WriteFormat("out") == Err(NoExtension)
  {
  }
}
