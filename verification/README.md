# 2D geometry, SVG writer and turtle — a Dafny model

This project models the header `framework/framework.hpp` of a small C++
graphics toolkit: the `Vector`, `Point` and `LineSegment` value types and
segment intersection, the `SVGFile` writer and its normalised-coordinate
convention, the `Turtle` drawing cursor that owns an `SVGFile`, and the
product of the flat row-major `Matrix`. All arithmetic is over Dafny's exact
`real` instead of IEEE doubles.

Modules, one per component:

- `Wrappers` (`wrappers.dfy`): `Option` and `Result`.
- `Geometry` (`geometry.dfy`): `Vector`, `Point`, `Segment`, tolerance equality
  of vectors, scaling, point minus point, point plus vector, segment direction,
  and normalisation given a length.
- `Intersection` (`intersection.dfy`): `LineSegment::intersect`, returning
  `Option<Point>`, and the sentinel encoding the C++ uses.
- `Svg` (`svg.dfy`): the writer as an append-only log of `Line`, `Circle` and
  `Rect` records plus an open flag; `Document` lists the elements the file
  holds (header with view box, white background, shapes, footer once closed).
- `TurtleGraphics` (`turtle.dfy`): position, heading in degrees (unbounded)
  and pen flag; `cos`, `sin` and pi are an uninterpreted `Trig` value passed
  to the operations.
- `Matrices` (`matrix.dfy`): the matrix product as three nested loops over a
  flat buffer, with the bounds-checked `.at` accesses.

## Model

| member | source | states |
|---|---|---|
| Geometry.ApproxEqReflexiveSymmetric | framework/framework.hpp:59-61 | vector equality (each coordinate within 0.001) holds of equal vectors and is symmetric |
| Geometry.ApproxEqNotTransitive | framework/framework.hpp:59-61 | vector equality is not transitive: (0,0) ~ (0.0006,0) ~ (0.0012,0) but (0,0) is not ~ (0.0012,0) |
| Geometry.ScaleKeepsDirection | framework/framework.hpp:67-69 | a vector times a scalar stays parallel to it, its projection is scaled by the scalar, and scaling by -1 twice is the identity |
| Geometry.Sub | framework/framework.hpp:100-102 | point minus point is the displacement that, added to the second point, gives the first |
| Geometry.SubTranslateRoundTrip | framework/framework.hpp:104-106 | point plus vector, minus the point, gives the vector back |
| Geometry.Vec | framework/framework.hpp:114-116 | `P1 + getVec() == P2` exactly, and the direction is zero exactly for a zero-length segment |
| Geometry.SameUnitIffCodirected | framework/framework.hpp:71-74 | two nonzero vectors normalise to the same unit vector iff their cross product is 0 and dot product positive |
| Geometry.NegatedUnitIffOpposite | framework/framework.hpp:119-121 | a normalised direction equals the negation of another iff the cross product is 0 and the dot product negative |
| Intersection.ParallelIffUnitsMatch | framework/framework.hpp:119-121 | for nondegenerate segments, "cross product of the directions is 0" is exactly "normalised directions equal or opposite", the test the first guard makes |
| Intersection.Denominator | framework/framework.hpp:127-128 | the determinant denominator is the cross product of the two directions, so it is nonzero exactly when the parallel guard passed |
| Intersection.Intersect | framework/framework.hpp:118-143 | parallel pairs give no intersection; a returned point lies on both lines and sits at parameter λ of each segment with λ in [0.01, 0.99] |
| Intersection.IntersectIffInteriorCrossing | framework/framework.hpp:133-140 | for non-parallel segments whose lines cross at parameter t of one and u of the other, the result is that point iff both t and u are in [0.01, 0.99], else none |
| Intersection.CrossingOnBothLines | framework/framework.hpp:125-132 | the determinant formula yields a point on both infinite lines |
| Intersection.CrossingIsUnique | framework/framework.hpp:125-132 | any point on both lines of a non-parallel pair is the determinant formula's point |
| Intersection.VerticalSpanIsZeroOverZero | framework/framework.hpp:133-136 | on a vertical segment the crossing has the segment's X, so the X ratio is 0/0 (the NaN case) and the Y span is nonzero |
| Intersection.LambdaLocatesPoint | framework/framework.hpp:133-136 | the λ computed from the X span, or the Y span for a vertical segment, locates the point: `P1 + λ·(P2 − P1)` is the point |
| Intersection.LambdaOfAtParam | framework/framework.hpp:133-136 | λ recovers the parameter t of the point `P1 + t·(P2 − P1)` |
| Intersection.IntersectAsWritten | framework/framework.hpp:110-143 | how a caller must read the C++ result: any point other than (`numeric_limits<double>::min()`, `numeric_limits<double>::min()`) is the crossing; that point means no crossing or a crossing exactly there, and nothing tells the two apart |
| Intersection.SentinelCollidesWithCrossing | framework/framework.hpp:110 | the sentinel is 2^-1022, a real positive coordinate: a genuine midpoint crossing at it is reported identically to a parallel pair |
| Svg.Document | framework/framework.hpp:157-237 | the file holds header and background, then one element per logged shape in order, then the footer only once closed |
| Svg.Create | framework/framework.hpp:157-163 | a new file is open and empty with the given name and size, and its background is white whatever colour is passed |
| Svg.CreateNamed | framework/framework.hpp:155 | a named file gets the default 1920 x 1080 canvas |
| Svg.CreateDefault | framework/framework.hpp:153 | the default file is "output_image.svg" on 1920 x 1080 |
| Svg.ToPixel | framework/framework.hpp:174-177 | `W/2 + x·W/2` maps -1 to 0, 0 to W/2 and 1 to W, and is inverted by `(px − W/2)/(W/2)` |
| Svg.AddLine | framework/framework.hpp:172-183 | appends one line in the given colour and changes nothing else; with upscale both endpoints are mapped to pixels per axis, without it they are logged unchanged |
| Svg.UpscaledDiagonalSpansCanvas | framework/framework.hpp:172-178 | an upscaled line from (-1,-1) to (1,1) is logged from (0,0) to (width, height) |
| Svg.AddCircle | framework/framework.hpp:194-207 | appends one circle; the centre is mapped only with upscale, the radius is never scaled, and a fill attribute in the stroke colour is present exactly when fill is set |
| Svg.AddRect | framework/framework.hpp:217-233 | appends one rectangle whose top-left corner plus half its size is the (mapped) centre; width and height are scaled by half the canvas only with upscale |
| Svg.Close | framework/framework.hpp:235-237 | closing appends the footer to the document and leaves the shapes alone; a closed file accepts no further call |
| Svg.FooterWrittenOnce | framework/framework.hpp:235-237 | a closed document ends with the footer and contains it exactly once |
| Svg.RunAppendsInOrder | framework/framework.hpp:172-233 | any sequence of shape calls keeps the earlier log and appends exactly one record per call, in call order |
| TurtleGraphics.ToDeg | framework/framework.hpp:286-287 | radians to degrees by 180/π is inverted by degrees to radians by π/180 |
| TurtleGraphics.NewTurtle | framework/framework.hpp:248-250 | a new turtle owns a default-size file and starts at the canvas centre, heading 0, pen down |
| TurtleGraphics.NewTurtleSized | framework/framework.hpp:252-254 | a turtle on a width x height file starts at (width/2, height/2), heading 0, pen down |
| TurtleGraphics.Forward | framework/framework.hpp:259-264 | moves to `pos + (cos h, −sin h)·len`; with the pen down appends exactly one black, non-upscaled line from the old to the new position, with the pen up leaves the file alone; heading and pen unchanged |
| TurtleGraphics.BackUndoesForward | framework/framework.hpp:266-268 | `back(l)` after `forward(l)` returns to the start with the same heading, logging the line and its reverse when drawing |
| TurtleGraphics.ForwardsCompose | framework/framework.hpp:259-264 | two moves on one heading land where one move of the summed length does |
| TurtleGraphics.ForwardCoversLength | framework/framework.hpp:259-263 | when cos² + sin² = 1 at the heading, a move of len covers squared distance len² |
| TurtleGraphics.Left | framework/framework.hpp:270-275 | turning changes only the heading: a degree turn adds the angle to the heading, and a radian turn adds the angle converted to degrees |
| TurtleGraphics.LeftAccumulates | framework/framework.hpp:274 | degree turns add up with no wrap-around: two turns equal one by the sum, and a 360 turn raises the heading by 360 |
| TurtleGraphics.RadianTurnIsDegreeTurn | framework/framework.hpp:270-273 | a radian turn is the turn by 180/π times the angle in degrees |
| TurtleGraphics.RightUndoesLeft | framework/framework.hpp:277-279 | `right(a)` is `left(−a)`, so it undoes `left(a)` exactly |
| TurtleGraphics.Drawing | framework/framework.hpp:281-283 | `drawing(d)` sets the pen flag to d and changes nothing else |
| TurtleGraphics.PenDoesNotAffectMotion | framework/framework.hpp:259-263 | the pen decides what is logged, never where the turtle moves; a pen-up move leaves the file as it was |
| TurtleGraphics.MotionIgnoresPenAndFile | framework/framework.hpp:259-283 | after any command sequence, position and heading depend only on the start position, heading and commands |
| TurtleGraphics.PenUpLogsNothing | framework/framework.hpp:259-283 | with the pen up and never put down, no command sequence logs anything |
| TurtleGraphics.LogsOnlyBlackLines | framework/framework.hpp:259-283 | the turtle only appends to its file, and everything it appends is a black line |
| TurtleGraphics.ForwardLeftForward | framework/framework.hpp:259-275 | forward 100, left 90, forward 100 logs two perpendicular lines and ends at start + (100, 0) + (0, −100) |
| Matrices.Zeros | framework/framework.hpp:24 | the `rows x cols` constructor gives a well-sized buffer of zeros |
| Matrices.AccessesInRangeIffLargeEnough | framework/framework.hpp:32-37 | every `.at` access of the product is in range iff there is none to make or both buffers hold at least rows·cols entries |
| Matrices.ValidOperandsInRange | framework/framework.hpp:36 | when both buffers have exactly rows·cols entries, every `.at` index is in bounds |
| Matrices.SumCell | framework/framework.hpp:35-37 | the inner loop leaves cell (row, col) holding Σᵢ a[row,i]·b[i,col] and every other cell as it was |
| Matrices.Multiply | framework/framework.hpp:28-42 | requires `_cols == mat._rows`; fails exactly when some `.at` access is out of range, else returns the `_rows x mat._cols` matrix whose entry (r,c) is Σᵢ a[r,i]·b[i,c] |

## Left out

- File output and number formatting: the markup text, the `xmlns` attributes and `std::ofstream` writes are not modelled; `Document` records which elements are written, in order.
- An output file that cannot be opened is not reported by the source (the stream fails silently), so construction has no error path here either.
- `sqrt`, `acos`, `cos`, `sin` and `M_PI`: `getLength`, `getAngle` and `LineSegment::getLength` are not modelled. `norm` is modelled as `Unit` given a length `len` with `len·len == x² + y²`. The turtle takes `cos`, `sin` and pi as an uninterpreted `Trig` value; its lemmas assume only the trigonometric facts they list.
- Intersection.Intersect: the parallel guard is exact (cross product of the directions is 0) instead of comparing unit vectors within 0.001, because the square root is not modelled. `ParallelIffUnitsMatch` proves the two agree when the tolerance is zero. Nearly parallel pairs inside the tolerance band, which the source rejects, are solved here.
- Intersection.Intersect: a zero-length segment gives `None`. In the source its unit vector is NaN, the guard passes, and the result is the point (NaN, NaN).
- IEEE effects: rounding, NaN and infinity are not modelled. The `__isnan` fallback becomes the test "X span is zero". With doubles, a crossing whose computed X differs from a vertical segment's X by rounding gives ±infinity instead of NaN, and is rejected.
- The unfinished `translation` function (it has no return statement) and the `TODO` items are not modelled.
- `Turtle`'s deleted copy operations are a C++ ownership rule; turtles here are values.
- `Vector::operator!=` and `Point::operator!=` are the negations of `ApproxEq` and `==`.
- Matrices.Multiply: the bounds check is done before the loops, not at the first failing `.at`. The outcome is the same: the exception discards the partial product. `size_t` wrap-around of `rows*cols` is not modelled.
- The `Matrix` constructor from an initializer list is the datatype constructor `Matrix`; like the source it does not check the buffer size.
- Default arguments are explicit parameters: the colour defaults to `DefaultColor`, the first palette entry "black", and `upscale` to false, which is what `Turtle::forward` passes.

## Findings

| source | as written | input that shows it | evidently intended | confidence | as-written member | corrected member |
|---|---|---|---|---|---|---|
| framework/framework.hpp:110 | "no intersection" is the point whose coordinates are both `numeric_limits<double>::min()`, which is the smallest positive double 2^-1022, not a value outside the plane | segments (m−1, m)–(m+1, m) and (m, m−1)–(m, m+1) with m = 2^-1022 cross at (m, m) at λ = 0.5 on both; the result equals the one for two parallel segments | a "no intersection" result no real crossing can produce, such as an optional point | high; not executed | Intersection.SentinelCollidesWithCrossing | Intersection.Intersect |
