/** The title screen: a rotating wire-frame cube between two lines of text. */
module TitleScreen {
  import opened Arithmetic
  import opened Bitwise
  import opened LineGeometry
  import opened Ssd1306
  import opened Display

  const VERTICES_OFFSET_SIZE := 16
  const VERTICES_FRAME_START := 0
  const VERTICES_FRAME_END := 59
  const COORD_X_OFFSET_START := -50
  const COORD_X_OFFSET_END := 40

  const LINE_DRAW_MATRIX: seq<(nat, nat)> :=
    [(0, 4), (1, 5), (2, 6), (3, 7), (0, 2), (4, 6), (1, 3), (5, 7), (0, 1), (4, 5), (2, 3), (6, 7)]

  /**
   Table of vertex coordinates, 8 vertices for each of 60 frames. The shipped ones have
   x from 51 to 91 and y from 14 to 52; moved sideways, some are behind column 127.
   */
  type CubeTable = t: seq<byte> | |t| == 960 && forall i :: 0 <= i < 480 ==> 50 <= t[2 * i] <= 95 && t[2 * i + 1] < 64
    witness seq(960, _ => 50)

  function CubeLine(coordinates: seq<Point>, i: nat): Line
    requires |coordinates| == 8 && i < 12
  {
    assert LINE_DRAW_MATRIX[i].0 < 8 && LINE_DRAW_MATRIX[i].1 < 8;
    var a, b := coordinates[LINE_DRAW_MATRIX[i].0], coordinates[LINE_DRAW_MATRIX[i].1];
    Line(a.x, a.y, b.x, b.y)
  }

  /** The pixels of the first n of the twelve edges. */
  ghost function EdgePixels(coordinates: seq<Point>, n: nat): set<Point>
    requires |coordinates| == 8 && n <= 12
  {
    if n == 0 then {} else EdgePixels(coordinates, n - 1) + Shape(CubeLine(coordinates, n - 1))
  }

  /** The pixels of the cube; nothing is drawn before the first frame. */
  ghost function CubePixels(coordinates: seq<Point>): set<Point> {
    if |coordinates| == 8 then EdgePixels(coordinates, 12) else {}
  }

  /** A pixel is on the cube when it is on one of the twelve lines, in a column of the panel. */
  lemma {:induction false} EdgePixelsMeaning(coordinates: seq<Point>, n: nat, p: Point)
    requires |coordinates| == 8 && n <= 12
    ensures p in EdgePixels(coordinates, n)
       <==> p.x < 128 && exists i :: 0 <= i < n && OnLine(CubeLine(coordinates, i), p)
  {
    if n > 0 {
      EdgePixelsMeaning(coordinates, n - 1, p);
      LinePixelsMeaning(CubeLine(coordinates, n - 1));
    }
  }

  predicate AllDrawable(coordinates: seq<Point>) { forall i :: 0 <= i < |coordinates| ==> Drawable(coordinates[i]) }

  /** The vertices of a frame moved sideways, in the 8 bits that hold a screen coordinate. */
  function FrameVertices(table: CubeTable, pointer: nat, xOffset: int, n: nat): (r: seq<Point>)
    requires n <= 8 && pointer + 16 <= 960
    ensures |r| == n
  {
    seq(n, i requires 0 <= i < n => Point((table[pointer + 2 * i] + xOffset) % 256, table[pointer + 2 * i + 1]))
  }

  /** Every vertex keeps within the bytes of a page, wherever the animation stands. */
  lemma FramesAreDrawable(table: CubeTable, frame: nat, xOffset: int)
    requires frame < 60 && -50 <= xOffset <= 40
    ensures AllDrawable(FrameVertices(table, 16 * frame, xOffset, 8))
  {
    forall i | 0 <= i < 8 ensures Drawable(FrameVertices(table, 16 * frame, xOffset, 8)[i]) {
      var k := 8 * frame + i;
      assert 50 <= table[2 * k] <= 95 && table[2 * k + 1] < 64;
    }
  }

  // --------------------------------------------------------- the cube in coordinates

  /** Vertices numbered in binary: an edge joins two whose numbers differ in exactly one digit. */
  predicate Adjacent(a: int, b: int) {
    && 0 <= a < b < 8
    && (if a % 2 != b % 2 then 1 else 0) + (if a / 2 % 2 != b / 2 % 2 then 1 else 0) + (if a / 4 != b / 4 then 1 else 0)
       == 1
  }

  /** A pixel of the panel on a straight line between two adjacent vertices. */
  ghost predicate OnEdges(v: seq<Point>, p: Point)
    requires |v| == 8
  {
    p.x < 128 && exists a, b :: Adjacent(a, b) && OnLine(Line(v[a].x, v[a].y, v[b].x, v[b].y), p)
  }

  /** The same for a frame of the table, moved sideways in 8 bits. */
  ghost predicate OnCube(table: CubeTable, frame: nat, offset: int, p: Point)
    requires frame < 60
  {
    p.x < 128 && exists a, b :: Adjacent(a, b) && OnEdge(table, frame, offset, a, b, p)
  }

  predicate OnEdge(table: CubeTable, frame: nat, offset: int, a: int, b: int, p: Point)
    requires frame < 60 && 0 <= a < 8 && 0 <= b < 8
  {
    var i, j := 16 * frame + 2 * a, 16 * frame + 2 * b;
    OnLine(Line((table[i] + offset) % 256, table[i + 1], (table[j] + offset) % 256, table[j + 1]), p)
  }

  /** The twelve entries of the matrix are exactly the pairs of adjacent vertices. */
  lemma MatrixIsAdjacency(a: int, b: int)
    ensures Adjacent(a, b) <==> exists i :: 0 <= i < 12 && LINE_DRAW_MATRIX[i] == (a, b)
  {
    if Adjacent(a, b) {
      var i := if b == a + 4 then a
               else if b == a + 2 then (if a == 0 then 4 else if a == 4 then 5 else if a == 1 then 6 else 7)
               else 8 + (if a == 0 then 0 else if a == 4 then 1 else if a == 2 then 2 else 3);
      assert LINE_DRAW_MATRIX[i] == (a, b);
    }
  }

  lemma EdgeOfMatrix(v: seq<Point>, i: nat)
    requires |v| == 8 && i < 12
    ensures var (a, b) := LINE_DRAW_MATRIX[i];
            && 0 <= a < 8 && 0 <= b < 8 && CubeLine(v, i) == Line(v[a].x, v[a].y, v[b].x, v[b].y)
  {
  }

  lemma EdgesInCoordinates(v: seq<Point>, p: Point)
    requires |v| == 8
    ensures p in CubePixels(v) <==> OnEdges(v, p)
  {
    EdgePixelsMeaning(v, 12, p);
    if p in CubePixels(v) {
      var i: nat :| i < 12 && OnLine(CubeLine(v, i), p);
      EdgeOfMatrix(v, i);
      MatrixIsAdjacency(LINE_DRAW_MATRIX[i].0, LINE_DRAW_MATRIX[i].1);
    }
    if OnEdges(v, p) {
      var a, b :| Adjacent(a, b) && OnLine(Line(v[a].x, v[a].y, v[b].x, v[b].y), p);
      MatrixIsAdjacency(a, b);
      var i: nat :| i < 12 && LINE_DRAW_MATRIX[i] == (a, b);
      EdgeOfMatrix(v, i);
    }
  }

  lemma CubeInCoordinates(table: CubeTable, frame: nat, offset: int, p: Point)
    requires frame < 60
    ensures p in CubePixels(FrameVertices(table, 16 * frame, offset, 8)) <==> OnCube(table, frame, offset, p)
  {
    var v := FrameVertices(table, 16 * frame, offset, 8);
    EdgesInCoordinates(v, p);
    forall a, b | Adjacent(a, b)
      ensures OnLine(Line(v[a].x, v[a].y, v[b].x, v[b].y), p) <==> OnEdge(table, frame, offset, a, b, p)
    {
      EdgeOfFrame(table, frame, offset, a, b, p);
    }
  }

  lemma EdgeOfFrame(table: CubeTable, frame: nat, offset: int, a: int, b: int, p: Point)
    requires frame < 60 && 0 <= a < 8 && 0 <= b < 8
    ensures var v := FrameVertices(table, 16 * frame, offset, 8);
            OnLine(Line(v[a].x, v[a].y, v[b].x, v[b].y), p) <==> OnEdge(table, frame, offset, a, b, p)
  {
    VertexOfFrame(table, frame, offset, a);
    VertexOfFrame(table, frame, offset, b);
  }

  lemma VertexOfFrame(table: CubeTable, frame: nat, offset: int, a: int)
    requires frame < 60 && 0 <= a < 8
    ensures var i := 16 * frame + 2 * a;
            FrameVertices(table, 16 * frame, offset, 8)[a] == Point((table[i] + offset) % 256, table[i + 1])
  {
  }

  /** The sign stands at the second player's place with one player, and at both with two. */
  lemma PlayersShown(count: nat)
    requires count <= 2
    ensures var t := PlayerText(count);
            && (t[15] == 3 <==> count >= 1) && (t[3] == 3 <==> count == 2)
  {
  }

  /** t steps up and down between 0 and n. */
  function Triangle(n: nat, t: nat): (r: nat)
    requires n > 0
    ensures r <= n
  {
    var m := t % (2 * n);
    if m <= n then m else 2 * n - m
  }

  predicate Rising(n: nat, t: nat)
    requires n > 0
  {
    t % (2 * n) < n
  }

  lemma TriangleStep(n: nat, t: nat)
    requires n > 0
    ensures Triangle(n, t + 1) == Triangle(n, t) + (if Rising(n, t) then 1 else -1)
    ensures Rising(n, t + 1) <==> if Rising(n, t) then Triangle(n, t + 1) < n else Triangle(n, t + 1) <= 0
  {
    NextRemainder(t, 2 * n);
  }

  const HEADER := "   PONG-Game"

  /** Who plays: the access point sign stands for a connected player. */
  function PlayerText(count: nat): (t: seq<nat>)
    requires count <= 2
    ensures |t| == 16 && forall i :: 0 <= i < 16 ==> t[i] < 128
  {
    if count == 0 then Codes("P1:AI       P2:-")
    else if count == 1 then Codes("P1:AI       P2:") + [3]
    else Codes("P1:") + [3] + Codes("        P2:") + [3]
  }

  class TitleScreen {
    const display: Display
    const table: CubeTable
    var playerCount: nat
    var verticesPointer: int
    var framePointer: int
    var framePointerDirection: int
    var coordXOffset: int
    var coordXOffsetDirection: int
    var lastCoordinates: seq<Point>
    /** How often render has run. */
    ghost var frames: nat

    /** After every call: where the animation stands, and that nothing but the last cube is lit between the texts. */
    ghost predicate Valid()
      reads this, display.dev, display.dev.pages, display.bus
    {
      && display.Valid()
      && playerCount <= 2
      && Moved()
      && |lastCoordinates| in {0, 8} && AllDrawable(lastCoordinates)
      && NoGhosts()
    }

    /** Both counters are triangle waves of the number of frames. */
    ghost predicate Moved()
      reads this
    {
      && framePointer == Triangle(59, frames)
      && framePointerDirection == (if Rising(59, frames) then 1 else -1)
      && verticesPointer == VERTICES_OFFSET_SIZE * framePointer
      && coordXOffset == COORD_X_OFFSET_START + 2 * Triangle(45, frames)
      && coordXOffsetDirection == (if Rising(45, frames) then 1 else -1)
    }

    /** Outside the text pages 1 and 7 the lit pixels are the cube of the last frame. */
    ghost predicate NoGhosts()
      reads this, display.dev
    {
      forall p: Point :: p.y / 8 != 1 && p.y / 8 != 7 ==>
        (p in display.dev.picture <==> p in CubePixels(lastCoordinates))
    }

    constructor (bus: Bus, font: Font, table: CubeTable)
      requires bus.controller.operands == 0 && font[0x1F] == Zeros(8)
      modifies bus
      ensures Valid() && display.Shown() && frames == 0 && playerCount == 0 && display.dev.picture == {}
      ensures this.table == table && display.bus == bus && fresh(display.dev) && fresh(display.dev.pages)
    {
      this.table := table;
      display := new Display(bus, font);
      playerCount := 0;
      verticesPointer := VERTICES_FRAME_START * VERTICES_OFFSET_SIZE;
      framePointer := VERTICES_FRAME_START;
      framePointerDirection := 1;
      coordXOffset := COORD_X_OFFSET_START;
      coordXOffsetDirection := 1;
      lastCoordinates := [];
      frames := 0;
      new;
      display.Init();
    }

    method DrawCubeLines(coordinates: seq<Point>, invert: bool)
      requires display.Valid() && AllDrawable(coordinates)
      modifies display.dev, display.dev.pages
      ensures display.Valid()
      ensures display.dev.picture == Painted(old(display.dev.picture), CubePixels(coordinates), invert)
      ensures |coordinates| == 8 ==> forall p :: p in display.dev.picture <==>
        if invert then p in old(display.dev.picture) && !OnEdges(coordinates, p)
        else p in old(display.dev.picture) || OnEdges(coordinates, p)
      ensures |coordinates| != 8 ==> display.dev.picture == old(display.dev.picture)
    {
      if |coordinates| == 8 {
        forall p ensures p in CubePixels(coordinates) <==> OnEdges(coordinates, p) {
          EdgesInCoordinates(coordinates, p);
        }
        for i := 0 to 12
          invariant display.Valid()
          invariant display.dev.picture == Painted(old(display.dev.picture), EdgePixels(coordinates, i), invert)
        {
          ghost var before, edge := EdgePixels(coordinates, i), Shape(CubeLine(coordinates, i));
          display.DrawLine(CubeLine(coordinates, i), invert);
          PaintedTwice(old(display.dev.picture), before, edge, invert);
        }
      }
    }

    method CalcCubeCoords()
      requires display.Valid() && Moved()
      modifies this`lastCoordinates, display.dev, display.dev.pages
      ensures display.Valid() && lastCoordinates == FrameVertices(table, verticesPointer, coordXOffset, 8)
      ensures AllDrawable(lastCoordinates)
      ensures display.dev.picture == old(display.dev.picture) + CubePixels(lastCoordinates)
    {
      var coordinates: seq<Point> := [];
      var coordsIndex := verticesPointer;
      for i := 0 to 8
        invariant coordsIndex == verticesPointer + 2 * i
        invariant coordinates == FrameVertices(table, verticesPointer, coordXOffset, i)
      {
        coordinates := coordinates + [Point((table[coordsIndex] + coordXOffset) % 256, table[coordsIndex + 1])];
        coordsIndex := coordsIndex + 2;
      }
      FramesAreDrawable(table, framePointer, coordXOffset);
      DrawCubeLines(coordinates, false);
      lastCoordinates := coordinates;
    }

    method ProcessMovement()
      requires Moved()
      modifies this`verticesPointer, this`framePointer, this`framePointerDirection,
        this`coordXOffset, this`coordXOffsetDirection, this`frames
      ensures Moved() && frames == old(frames) + 1
    {
      TriangleStep(59, frames);
      TriangleStep(45, frames);
      if framePointerDirection == 1 {
        verticesPointer := verticesPointer + VERTICES_OFFSET_SIZE;
        framePointer := framePointer + 1;
        if framePointer >= VERTICES_FRAME_END { framePointerDirection := -1; }
      } else if framePointerDirection == -1 {
        verticesPointer := verticesPointer - VERTICES_OFFSET_SIZE;
        framePointer := framePointer - 1;
        if framePointer <= VERTICES_FRAME_START { framePointerDirection := 1; }
      }
      if coordXOffsetDirection == 1 {
        coordXOffset := coordXOffset + 2;
        if coordXOffset >= COORD_X_OFFSET_END { coordXOffsetDirection := -1; }
      } else if coordXOffsetDirection == -1 {
        coordXOffset := coordXOffset - 2;
        if coordXOffset <= COORD_X_OFFSET_START { coordXOffsetDirection := 1; }
      }
      frames := frames + 1;
    }

    /** Draws frame number old(frames), and shows it. */
    method Render()
      requires Valid()
      modifies this, display.dev, display.dev.pages, display.bus
      ensures Valid() && display.Shown() && frames == old(frames) + 1 && playerCount == old(playerCount)
      ensures lastCoordinates == FrameVertices(table, VERTICES_OFFSET_SIZE * Triangle(59, old(frames)),
                                               COORD_X_OFFSET_START + 2 * Triangle(45, old(frames)), 8)
      ensures forall p: Point :: p.y / 8 != 1 && p.y / 8 != 7 ==>
        (p in display.dev.picture <==>
          OnCube(table, Triangle(59, old(frames)), -50 + 2 * Triangle(45, old(frames)), p))
    {
      ghost var frame, offset := framePointer, coordXOffset;
      DrawCubeLines(lastCoordinates, true);
      CalcCubeCoords();
      display.ShowBuffer();
      ProcessMovement();
      forall p: Point ensures p in CubePixels(lastCoordinates) <==> OnCube(table, frame, offset, p) {
        CubeInCoordinates(table, frame, offset, p);
      }
    }

    method PrintHeader()
      requires Valid()
      modifies display.dev, display.dev.pages, display.bus
      ensures Valid() && (old(display.Shown()) ==> display.Shown())
      ensures forall p :: 0 <= p < 8 ==>
        display.dev.Row(p)
        == if p == 1 then TextRow(display.font, Codes(HEADER), false, old(display.dev.Row(p)))
           else old(display.dev.Row(p))
    {
      display.RenderText(1, Codes(HEADER));
    }

    method PrintPlayerInfo()
      requires Valid()
      modifies display.dev, display.dev.pages, display.bus
      ensures Valid() && (old(display.Shown()) ==> display.Shown())
      ensures forall p :: 0 <= p < 8 ==>
        display.dev.Row(p)
        == if p == 7 then TextRow(display.font, PlayerText(playerCount), false, old(display.dev.Row(p)))
           else old(display.dev.Row(p))
    {
      if playerCount == 0 {
        PrintPlayers(Codes("P1:AI       P2:-"));
      } else if playerCount == 1 {
        PrintPlayers(Codes("P1:AI       P2:") + [3]);
      } else if playerCount == 2 {
        PrintPlayers(Codes("P1:") + [3] + Codes("        P2:") + [3]);
      }
    }

    method PrintPlayers(text: Text)
      requires Valid() && |text| == 16
      modifies display.dev, display.dev.pages, display.bus
      ensures Valid() && (old(display.Shown()) ==> display.Shown())
      ensures forall p :: 0 <= p < 8 ==>
        display.dev.Row(p)
        == if p == 7 then TextRow(display.font, text, false, old(display.dev.Row(p))) else old(display.dev.Row(p))
    {
      display.RenderText(7, text);
    }

    method AddPlayer()
      requires Valid()
      modifies this`playerCount
      ensures Valid() && playerCount == if old(playerCount) < 2 then old(playerCount) + 1 else 2
    {
      if playerCount < 2 { playerCount := playerCount + 1; }
    }

    method RemovePlayer()
      requires Valid()
      modifies this`playerCount
      ensures Valid() && playerCount == if old(playerCount) > 0 then old(playerCount) - 1 else 0
    {
      if playerCount > 0 { playerCount := playerCount - 1; }
    }
  }
}
