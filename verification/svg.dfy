/** The SVG writer, modelled as an append-only log of shape records plus an
    open/closed flag. The text of the markup is not modelled; `Document`
    lists the elements the file would contain, in order. */
module Svg {
  import opened Wrappers
  import opened Geometry

  const FileName: string := "output_image.svg"
  const ImageHeight: real := 1080.0
  const ImageWidth: real := 1920.0

  /** The fixed colour palette. */
  const Colors: seq<string> := [
    "black", "red", "yellow", "green", "cyan", "blue", "pink",
    "tomato", "greenyelow", "turquoise", "dodgerblue", "purple", "mediumvioletred",
    "darkorange", "lightgreen", "aquamarine", "royalblue", "mediumpurple", "hotpink"
  ]

  /** The default colour of every shape operation: the first palette entry. */
  const DefaultColor: string := Colors[0]

  /** One shape element as written to the file. A circle carries a fill
      attribute only when it is filled. */
  datatype Shape =
    | Line(a: Point, b: Point, stroke: string)
    | Circle(center: Point, radius: real, stroke: string, fill: Option<string>)
    | Rect(corner: Point, width: real, height: real, color: string)

  /** An image file: its name, canvas size, background fill, the shapes drawn
      so far in order, and whether the footer is still unwritten. */
  datatype SvgFile = SvgFile(
    name: string,
    height: real,
    width: real,
    background: string,
    shapes: seq<Shape>,
    open: bool)

  /** The elements of the written document. */
  datatype Element =
    | Header(width: real, height: real)
    | Background(fill: string)
    | Drawn(shape: Shape)
    | Footer

  /** The document as far as it is written: header with the view box, a
      full-canvas background, the shapes in drawing order, and the footer
      once the file is closed. */
  function Document(f: SvgFile): (doc: seq<Element>)
    ensures |doc| == |f.shapes| + (if f.open then 2 else 3)
    ensures doc[0] == Header(f.width, f.height) && doc[1] == Background(f.background)
    ensures !f.open <==> doc[|doc| - 1] == Footer
    ensures forall i | 0 <= i < |f.shapes| :: doc[i + 2] == Drawn(f.shapes[i])
  {
    [Header(f.width, f.height), Background(f.background)]
      + seq(|f.shapes|, i requires 0 <= i < |f.shapes| => Drawn(f.shapes[i]))
      + (if f.open then [] else [Footer])
  }

  /** A new file with the given name and canvas. The background is white
      whatever `color` is passed. */
  function Create(name: string, height: real, width: real, color: string): (f: SvgFile)
    ensures f.open && f.shapes == []
    ensures f.name == name && f.height == height && f.width == width
    ensures f.background == "white"
    ensures Document(f) == [Header(width, height), Background("white")]
  {
    SvgFile(name, height, width, "white", [], true)
  }

  /** A new file with the given name on the default 1920 x 1080 canvas. */
  function CreateNamed(name: string): (f: SvgFile)
    ensures f.open && f.shapes == [] && f.name == name
    ensures f.width == 1920.0 && f.height == 1080.0 && f.background == "white"
  {
    Create(name, ImageHeight, ImageWidth, "white")
  }

  /** A new file with the default name and canvas. */
  function CreateDefault(): (f: SvgFile)
    ensures f.open && f.shapes == [] && f.name == "output_image.svg"
    ensures f.width == 1920.0 && f.height == 1080.0 && f.background == "white"
  {
    CreateNamed(FileName)
  }

  /** The normalised-to-pixel transform on one axis: [-1, 1] onto [0, extent].
      It is affine and, for a nonzero extent, invertible. */
  function ToPixel(extent: real, n: real): (px: real)
    ensures extent != 0.0 ==> n == (px - extent / 2.0) / (extent / 2.0)
    ensures n == -1.0 ==> px == 0.0
    ensures n == 0.0 ==> px == extent / 2.0
    ensures n == 1.0 ==> px == extent
  {
    extent / 2.0 + n * extent / 2.0
  }

  /** A normalised point mapped to the pixel coordinates of `f`'s canvas. */
  function Upscale(f: SvgFile, p: Point): Point {
    Point(ToPixel(f.width, p.x), ToPixel(f.height, p.y))
  }

  /** Appends one shape; nothing else about the file changes. */
  function Append(f: SvgFile, s: Shape): (g: SvgFile)
    requires f.open
    ensures g.open && g.name == f.name && g.height == f.height && g.width == f.width
    ensures g.background == f.background
    ensures |g.shapes| == |f.shapes| + 1 && g.shapes[..|f.shapes|] == f.shapes
    ensures g.shapes[|f.shapes|] == s
  {
    f.(shapes := f.shapes + [s])
  }

  /** The line record `addLine` writes. */
  function LineShape(f: SvgFile, a: Point, b: Point, col: string, upscale: bool): Shape {
    if upscale then Line(Upscale(f, a), Upscale(f, b), col) else Line(a, b, col)
  }

  /** The circle record `addCircle` writes; the radius is never scaled. */
  function CircleShape(f: SvgFile, c: Point, rad: real, fill: bool, col: string, upscale: bool): Shape {
    Circle(if upscale then Upscale(f, c) else c, rad, col, if fill then Some(col) else None)
  }

  /** The rectangle record `addRect` writes: sizes scaled by half the canvas
      when upscaling, and the centre moved to the top-left corner. */
  function RectShape(f: SvgFile, c: Point, width: real, height: real, col: string, upscale: bool): Shape {
    if upscale then
      var w := width * (f.width / 2.0);
      var h := height * (f.height / 2.0);
      Rect(Point(f.width / 2.0 + c.x * f.width / 2.0 - w / 2.0,
                 f.height / 2.0 + c.y * f.height / 2.0 - h / 2.0), w, h, col)
    else
      Rect(Point(c.x - width / 2.0, c.y - height / 2.0), width, height, col)
  }

  /** The centre of a rectangle record: its top-left corner plus half its size. */
  function RectCenter(s: Shape): Point
    requires s.Rect?
  {
    Point(s.corner.x + s.width / 2.0, s.corner.y + s.height / 2.0)
  }

  /** Draws a line. With `upscale` the endpoints are normalised coordinates
      and are mapped to pixels; without it both are logged unchanged. */
  function AddLine(f: SvgFile, a: Point, b: Point, col: string, upscale: bool): (g: SvgFile)
    requires f.open
    ensures g.open && g.width == f.width && g.height == f.height && g.name == f.name
    ensures g.background == f.background
    ensures |g.shapes| == |f.shapes| + 1 && g.shapes[..|f.shapes|] == f.shapes
    ensures g.shapes[|f.shapes|].Line? && g.shapes[|f.shapes|].stroke == col
    ensures !upscale ==> g.shapes[|f.shapes|].a == a && g.shapes[|f.shapes|].b == b
    ensures upscale ==>
      && g.shapes[|f.shapes|].a == Point(ToPixel(f.width, a.x), ToPixel(f.height, a.y))
      && g.shapes[|f.shapes|].b == Point(ToPixel(f.width, b.x), ToPixel(f.height, b.y))
  {
    Append(f, LineShape(f, a, b, col, upscale))
  }

  /** Upscaling maps the normalised corners (-1, -1) and (1, 1) to the
      canvas corners (0, 0) and (width, height). */
  lemma UpscaledDiagonalSpansCanvas(f: SvgFile, col: string)
    requires f.open
    ensures
      var g := AddLine(f, Point(-1.0, -1.0), Point(1.0, 1.0), col, true);
      g.shapes[|f.shapes|] == Line(Point(0.0, 0.0), Point(f.width, f.height), col)
  {
  }

  /** Draws a circle. Its centre is mapped to pixels with `upscale`, its
      radius never is, and it carries a fill attribute exactly when `fill`. */
  function AddCircle(f: SvgFile, c: Point, rad: real, fill: bool, col: string, upscale: bool): (g: SvgFile)
    requires f.open
    ensures g.open && g.width == f.width && g.height == f.height && g.name == f.name
    ensures g.background == f.background
    ensures |g.shapes| == |f.shapes| + 1 && g.shapes[..|f.shapes|] == f.shapes
    ensures g.shapes[|f.shapes|].Circle?
    ensures g.shapes[|f.shapes|].radius == rad
    ensures g.shapes[|f.shapes|].stroke == col
    ensures g.shapes[|f.shapes|].fill.Some? <==> fill
    ensures fill ==> g.shapes[|f.shapes|].fill == Some(col)
    ensures g.shapes[|f.shapes|].center == (if upscale then Upscale(f, c) else c)
  {
    Append(f, CircleShape(f, c, rad, fill, col, upscale))
  }

  /** Draws a filled rectangle positioned by its centre. The logged corner is
      the (mapped) centre minus half the (scaled) size; the size is scaled by
      half the canvas only with `upscale`. */
  function AddRect(f: SvgFile, c: Point, width: real, height: real, col: string, upscale: bool): (g: SvgFile)
    requires f.open
    ensures g.open && g.width == f.width && g.height == f.height && g.name == f.name
    ensures g.background == f.background
    ensures |g.shapes| == |f.shapes| + 1 && g.shapes[..|f.shapes|] == f.shapes
    ensures g.shapes[|f.shapes|].Rect? && g.shapes[|f.shapes|].color == col
    ensures RectCenter(g.shapes[|f.shapes|]) == (if upscale then Upscale(f, c) else c)
    ensures g.shapes[|f.shapes|].width == (if upscale then width * (f.width / 2.0) else width)
    ensures g.shapes[|f.shapes|].height == (if upscale then height * (f.height / 2.0) else height)
  {
    Append(f, RectShape(f, c, width, height, col, upscale))
  }

  /** Writes the footer. Only an open file can be closed, so the footer is
      written at most once, and no shape can follow it. */
  function Close(f: SvgFile): (g: SvgFile)
    requires f.open
    ensures !g.open && g.shapes == f.shapes
    ensures Document(g) == Document(f) + [Footer]
  {
    f.(open := false)
  }

  /** A closed document ends with the footer and contains it exactly once. */
  lemma FooterWrittenOnce(f: SvgFile)
    requires !f.open
    ensures Document(f)[|Document(f)| - 1] == Footer
    ensures multiset(Document(f))[Footer] == 1
  {
    var doc := Document(f);
    var body := seq(|f.shapes|, i requires 0 <= i < |f.shapes| => Drawn(f.shapes[i]));
    assert doc == [Header(f.width, f.height), Background(f.background)] + body + [Footer];
    assert Footer !in body;
    assert multiset(body)[Footer] == 0;
  }

  /** A shape-drawing call. */
  datatype Command =
    | DrawLine(a: Point, b: Point, col: string, upscale: bool)
    | DrawCircle(c: Point, rad: real, fill: bool, col: string, upscale: bool)
    | DrawRect(c: Point, width: real, height: real, col: string, upscale: bool)

  /** The record a command logs on a canvas like `f`'s. */
  function Record(f: SvgFile, cmd: Command): Shape {
    match cmd
    case DrawLine(a, b, col, up) => LineShape(f, a, b, col, up)
    case DrawCircle(c, rad, fill, col, up) => CircleShape(f, c, rad, fill, col, up)
    case DrawRect(c, w, h, col, up) => RectShape(f, c, w, h, col, up)
  }

  /** Performs one command. */
  function Apply(f: SvgFile, cmd: Command): SvgFile
    requires f.open
  {
    match cmd
    case DrawLine(a, b, col, up) => AddLine(f, a, b, col, up)
    case DrawCircle(c, rad, fill, col, up) => AddCircle(f, c, rad, fill, col, up)
    case DrawRect(c, w, h, col, up) => AddRect(f, c, w, h, col, up)
  }

  /** Performs the commands in order. */
  function Run(f: SvgFile, cmds: seq<Command>): (g: SvgFile)
    requires f.open
    ensures g.open && g.width == f.width && g.height == f.height
    ensures g.name == f.name && g.background == f.background
    decreases |cmds|
  {
    if cmds == [] then f else Run(Apply(f, cmds[0]), cmds[1..])
  }

  /** The records of a sequence of commands, on a canvas like `f`'s. */
  function Records(f: SvgFile, cmds: seq<Command>): (rs: seq<Shape>)
    ensures |rs| == |cmds|
  {
    seq(|cmds|, i requires 0 <= i < |cmds| => Record(f, cmds[i]))
  }

  /** A command logs exactly its record and nothing else. */
  lemma ApplyAppendsRecord(f: SvgFile, cmd: Command)
    requires f.open
    ensures Apply(f, cmd) == f.(shapes := f.shapes + [Record(f, cmd)])
  {
  }

  /** Records depend only on the canvas size. */
  lemma RecordsDependOnCanvas(f: SvgFile, g: SvgFile, cmds: seq<Command>)
    requires f.width == g.width && f.height == g.height
    ensures Records(f, cmds) == Records(g, cmds)
  {
    forall i | 0 <= i < |cmds|
      ensures Record(f, cmds[i]) == Record(g, cmds[i])
    {
    }
  }

  /** The log is append-only: a run of commands keeps every earlier shape and
      adds exactly one record per command, in command order. */
  lemma {:induction false} RunAppendsInOrder(f: SvgFile, cmds: seq<Command>)
    requires f.open
    ensures Run(f, cmds).shapes == f.shapes + Records(f, cmds)
    decreases |cmds|
  {
    if cmds == [] {
      assert Records(f, cmds) == [];
    } else {
      var g := Apply(f, cmds[0]);
      ApplyAppendsRecord(f, cmds[0]);
      RunAppendsInOrder(g, cmds[1..]);
      RecordsDependOnCanvas(g, f, cmds[1..]);
      assert Run(f, cmds) == Run(g, cmds[1..]);
      assert Records(f, cmds) == [Record(f, cmds[0])] + Records(f, cmds[1..]);
      calc {
        Run(f, cmds).shapes;
        g.shapes + Records(f, cmds[1..]);
        (f.shapes + [Record(f, cmds[0])]) + Records(f, cmds[1..]);
        f.shapes + ([Record(f, cmds[0])] + Records(f, cmds[1..]));
      }
    }
  }
}
