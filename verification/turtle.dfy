/** The turtle: a dead-reckoning cursor that owns one SVG file and logs a
    line for every move made with the pen down. */
module TurtleGraphics {
  import opened Geometry
  import opened Svg

  /** The trigonometry the turtle needs, left uninterpreted: cosine and sine
      of an angle in radians, and the value of pi. */
  datatype Trig = Trig(cos: real -> real, sin: real -> real, pi: real)

  /** The turtle's state: its file, position, heading in degrees (unbounded,
      never wrapped) and pen flag. */
  datatype Turtle = Turtle(file: SvgFile, pos: Point, heading: real, drawing: bool)

  function ToRad(trig: Trig, degrees: real): real {
    trig.pi / 180.0 * degrees
  }

  /** Radians to degrees; it inverts `ToRad`. */
  function ToDeg(trig: Trig, radians: real): (degrees: real)
    requires trig.pi != 0.0
    ensures ToRad(trig, degrees) == radians
  {
    180.0 / trig.pi * radians
  }

  /** The unit step for a heading, with Y pointing down the canvas. */
  function Direction(trig: Trig, heading: real): Vector {
    Vector(trig.cos(ToRad(trig, heading)), -trig.sin(ToRad(trig, heading)))
  }

  /** A turtle on a new default-size file, at the centre of the canvas,
      heading 0 degrees, pen down. */
  function NewTurtle(name: string): (t: Turtle)
    ensures t.file == CreateNamed(name)
    ensures t.pos == Point(t.file.width / 2.0, t.file.height / 2.0)
    ensures t.heading == 0.0 && t.drawing
  {
    var file := CreateNamed(name);
    Turtle(file, Point(file.width / 2.0, file.height / 2.0), 0.0, true)
  }

  /** A turtle on a new `width` x `height` file, at the centre of the canvas,
      heading 0 degrees, pen down. */
  function NewTurtleSized(name: string, height: real, width: real): (t: Turtle)
    ensures t.file == Create(name, height, width, "white")
    ensures t.pos == Point(t.file.width / 2.0, t.file.height / 2.0)
    ensures t.heading == 0.0 && t.drawing
  {
    Turtle(Create(name, height, width, "white"), Point(width / 2.0, height / 2.0), 0.0, true)
  }

  /** Moves `len` along the heading. With the pen down it logs exactly one
      black, non-upscaled line from the old to the new position; with the pen
      up the file is untouched. Heading and pen never change. */
  function Forward(t: Turtle, len: real, trig: Trig): (u: Turtle)
    requires t.file.open
    ensures u.pos == Translate(t.pos, Scale(Direction(trig, t.heading), len))
    ensures u.heading == t.heading && u.drawing == t.drawing
    ensures u.file.open && u.file.width == t.file.width && u.file.height == t.file.height
    ensures u.file.name == t.file.name && u.file.background == t.file.background
    ensures t.drawing ==> u.file.shapes == t.file.shapes + [Line(t.pos, u.pos, "black")]
    ensures !t.drawing ==> u.file == t.file
  {
    var newPos := Translate(t.pos, Scale(Direction(trig, t.heading), len));
    var file := if t.drawing then AddLine(t.file, t.pos, newPos, DefaultColor, false) else t.file;
    t.(file := file, pos := newPos)
  }

  /** Moves `len` against the heading. */
  function Back(t: Turtle, len: real, trig: Trig): Turtle
    requires t.file.open
  {
    Forward(t, -len, trig)
  }

  /** Turns anticlockwise by `angle`, given in radians when `radians` is set
      and in degrees otherwise. Only the heading changes. */
  function Left(t: Turtle, angle: real, radians: bool, trig: Trig): (u: Turtle)
    requires radians ==> trig.pi != 0.0
    ensures u.pos == t.pos && u.file == t.file && u.drawing == t.drawing
    ensures !radians ==> u.heading == t.heading + angle
    ensures ToRad(trig, u.heading - t.heading) == (if radians then angle else ToRad(trig, angle))
  {
    var degrees := if radians then ToDeg(trig, angle) else angle;
    t.(heading := t.heading + degrees)
  }

  /** Turns clockwise by `angle`. */
  function Right(t: Turtle, angle: real, radians: bool, trig: Trig): Turtle
    requires radians ==> trig.pi != 0.0
  {
    Left(t, -angle, radians, trig)
  }

  /** Sets the pen flag; nothing else changes. */
  function Drawing(t: Turtle, draw: bool): (u: Turtle)
    ensures u.drawing == draw
    ensures u.pos == t.pos && u.heading == t.heading && u.file == t.file
  {
    t.(drawing := draw)
  }

  /** Degree turns accumulate by plain addition: no wrap-around at 360. */
  lemma LeftAccumulates(t: Turtle, a: real, b: real, trig: Trig)
    ensures Left(Left(t, a, false, trig), b, false, trig) == Left(t, a + b, false, trig)
    ensures Left(t, 360.0, false, trig).heading == t.heading + 360.0
  {
  }

  /** A turn in radians is the turn by the converted number of degrees. */
  lemma RadianTurnIsDegreeTurn(t: Turtle, angle: real, trig: Trig)
    requires trig.pi != 0.0
    ensures Left(t, angle, true, trig) == Left(t, 180.0 / trig.pi * angle, false, trig)
  {
  }

  /** Turning right undoes turning left by the same angle. */
  lemma RightUndoesLeft(t: Turtle, angle: real, radians: bool, trig: Trig)
    requires radians ==> trig.pi != 0.0
    ensures Right(Left(t, angle, radians, trig), angle, radians, trig) == t
  {
  }

  /** Going back the same distance returns to the start with the same
      heading; with the pen down the two moves log the outgoing line and then
      its reverse. */
  lemma BackUndoesForward(t: Turtle, len: real, trig: Trig)
    requires t.file.open
    ensures
      var m := Forward(t, len, trig);
      var u := Back(m, len, trig);
      && u.pos == t.pos && u.heading == t.heading && u.drawing == t.drawing
      && (t.drawing ==> u.file.shapes == t.file.shapes + [Line(t.pos, m.pos, "black"), Line(m.pos, t.pos, "black")])
      && (!t.drawing ==> u.file == t.file)
  {
    var m := Forward(t, len, trig);
    var u := Back(m, len, trig);
    var d := Direction(trig, t.heading);
    assert u.pos.x == t.pos.x + d.x * len + d.x * -len;
    assert u.pos.y == t.pos.y + d.y * len + d.y * -len;
  }

  /** Two moves along the same heading add up. */
  lemma ForwardsCompose(t: Turtle, a: real, b: real, trig: Trig)
    requires t.file.open
    ensures Forward(Forward(t, a, trig), b, trig).pos == Forward(t, a + b, trig).pos
  {
    var d := Direction(trig, t.heading);
    assert d.x * a + d.x * b == d.x * (a + b);
    assert d.y * a + d.y * b == d.y * (a + b);
  }

  /** When cosine and sine of the heading satisfy the Pythagorean identity,
      a move of `len` covers squared distance `len * len`. */
  lemma ForwardCoversLength(t: Turtle, len: real, trig: Trig)
    requires t.file.open
    requires
      var r := ToRad(trig, t.heading);
      trig.cos(r) * trig.cos(r) + trig.sin(r) * trig.sin(r) == 1.0
    ensures
      var step := Sub(Forward(t, len, trig).pos, t.pos);
      Dot(step, step) == len * len
  {
    var d := Direction(trig, t.heading);
    var step := Sub(Forward(t, len, trig).pos, t.pos);
    assert step == Vector(d.x * len, d.y * len);
    assert Dot(d, d) == 1.0;
    assert Dot(step, step) == Dot(d, d) * (len * len);
  }

  /** The pen decides only what is logged, never where the turtle goes. */
  lemma PenDoesNotAffectMotion(t: Turtle, draw: bool, len: real, trig: Trig)
    requires t.file.open
    ensures Forward(Drawing(t, draw), len, trig).pos == Forward(t, len, trig).pos
    ensures Forward(Drawing(t, false), len, trig).file == t.file
  {
  }

  /** A turtle command. */
  datatype Move =
    | Fwd(len: real)
    | Bk(len: real)
    | Lt(angle: real, radians: bool)
    | Rt(angle: real, radians: bool)
    | Pen(draw: bool)

  function Step(t: Turtle, m: Move, trig: Trig): (u: Turtle)
    requires t.file.open && trig.pi != 0.0
    ensures u.file.open && u.file.width == t.file.width && u.file.height == t.file.height
  {
    match m
    case Fwd(len) => Forward(t, len, trig)
    case Bk(len) => Back(t, len, trig)
    case Lt(angle, radians) => Left(t, angle, radians, trig)
    case Rt(angle, radians) => Right(t, angle, radians, trig)
    case Pen(draw) => Drawing(t, draw)
  }

  /** Performs the commands in order. */
  function Exec(t: Turtle, ms: seq<Move>, trig: Trig): (u: Turtle)
    requires t.file.open && trig.pi != 0.0
    ensures u.file.open && u.file.width == t.file.width && u.file.height == t.file.height
    decreases |ms|
  {
    if ms == [] then t else Exec(Step(t, ms[0], trig), ms[1..], trig)
  }

  /** Position and heading follow from the commands alone: two turtles that
      start at the same place facing the same way end at the same place
      facing the same way, whatever their pens and files. */
  lemma {:induction false} MotionIgnoresPenAndFile(t1: Turtle, t2: Turtle, ms: seq<Move>, trig: Trig)
    requires t1.file.open && t2.file.open && trig.pi != 0.0
    requires t1.pos == t2.pos && t1.heading == t2.heading
    ensures Exec(t1, ms, trig).pos == Exec(t2, ms, trig).pos
    ensures Exec(t1, ms, trig).heading == Exec(t2, ms, trig).heading
    decreases |ms|
  {
    if ms != [] {
      MotionIgnoresPenAndFile(Step(t1, ms[0], trig), Step(t2, ms[0], trig), ms[1..], trig);
    }
  }

  /** No command of `ms` puts the pen down. */
  predicate KeepsPenUp(ms: seq<Move>) {
    forall i | 0 <= i < |ms| :: ms[i] != Pen(true)
  }

  /** With the pen up and never put down, no command logs anything. */
  lemma {:induction false} PenUpLogsNothing(t: Turtle, ms: seq<Move>, trig: Trig)
    requires t.file.open && trig.pi != 0.0
    requires !t.drawing && KeepsPenUp(ms)
    ensures Exec(t, ms, trig).file == t.file
    ensures !Exec(t, ms, trig).drawing
    decreases |ms|
  {
    if ms != [] {
      assert ms[0] != Pen(true);
      var u := Step(t, ms[0], trig);
      assert u.file == t.file && !u.drawing;
      assert KeepsPenUp(ms[1..]) by {
        forall i | 0 <= i < |ms[1..]| ensures ms[1..][i] != Pen(true) {
          assert ms[1..][i] == ms[i + 1];
        }
      }
      PenUpLogsNothing(u, ms[1..], trig);
    }
  }

  /** Every record the turtle adds to its file is a black, non-upscaled line,
      and earlier records are kept. */
  lemma {:induction false} LogsOnlyBlackLines(t: Turtle, ms: seq<Move>, trig: Trig)
    requires t.file.open && trig.pi != 0.0
    ensures
      var shapes := Exec(t, ms, trig).file.shapes;
      && |shapes| >= |t.file.shapes| && shapes[..|t.file.shapes|] == t.file.shapes
      && forall i | |t.file.shapes| <= i < |shapes| :: shapes[i].Line? && shapes[i].stroke == "black"
    decreases |ms|
  {
    if ms != [] {
      var u := Step(t, ms[0], trig);
      assert |u.file.shapes| >= |t.file.shapes| && u.file.shapes[..|t.file.shapes|] == t.file.shapes;
      assert forall i | |t.file.shapes| <= i < |u.file.shapes| ::
        u.file.shapes[i].Line? && u.file.shapes[i].stroke == "black";
      LogsOnlyBlackLines(u, ms[1..], trig);
      var shapes := Exec(t, ms, trig).file.shapes;
      assert shapes[..|t.file.shapes|] == shapes[..|u.file.shapes|][..|t.file.shapes|];
    }
  }

  /** Forward 100, left 90, forward 100 with the pen down logs two
      perpendicular lines and ends 100 right and 100 up of the start, given
      that the cosine and sine of 0 and 90 degrees have their usual values. */
  lemma ForwardLeftForward(t: Turtle, trig: Trig)
    requires t.file.open && t.heading == 0.0 && t.drawing
    requires Direction(trig, 0.0) == Vector(1.0, 0.0)
    requires Direction(trig, 90.0) == Vector(0.0, -1.0)
    ensures
      var u := Forward(Left(Forward(t, 100.0, trig), 90.0, false, trig), 100.0, trig);
      var p := t.pos;
      var corner := Point(p.x + 100.0, p.y);
      && u.pos == Point(p.x + 100.0, p.y - 100.0)
      && u.file.shapes == t.file.shapes + [Line(p, corner, "black"), Line(corner, u.pos, "black")]
      && Dot(Sub(corner, p), Sub(u.pos, corner)) == 0.0
  {
    var t1 := Forward(t, 100.0, trig);
    var t2 := Left(t1, 90.0, false, trig);
    assert t2.heading == 90.0;
  }
}
