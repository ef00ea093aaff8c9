/** The game screen: erases the strokes of the last frame and draws those of the next. */
module GameScreen {
  import opened Wrappers
  import opened Bitwise
  import opened LineGeometry
  import opened Ssd1306
  import opened Display
  import opened Text

  const MIDDLE_LINE := Line(64, 8, 64, 56)

  /** A number kept in 8 bits. */
  function Narrow(n: int): (r: byte) { n % 256 }

  predicate PuckDrawn(x: byte, y: byte) { x <= 127 && y <= 62 }

  ghost function PuckPixels(x: byte, y: byte): set<Point> {
    if PuckDrawn(x, y) then Shape(Line(x, y, x + 1, y)) + Shape(Line(x, y + 1, x + 2, y + 1)) else {}
  }

  predicate PaddleDrawn(y: byte) { 2 <= y <= 57 }

  function PaddleLine(y: byte, x: nat): Line { Line(x, y, x, if y <= 53 then y + 10 else 63) }

  ghost function PaddlePixels(y: byte, xAdd: nat): set<Point> {
    if PaddleDrawn(y) then
      Shape(PaddleLine(y, 4 + xAdd)) + Shape(PaddleLine(y, 5 + xAdd)) + Shape(PaddleLine(y, 6 + xAdd))
    else {}
  }

  /** The fields kept from the last frame: none before the first one. */
  type Fields = d: seq<string> | |d| == 6 ==> AllNumeric(d) witness []

  /** What the screen reads of a frame are numbers, and scores it can print; more than six fields draw no objects. */
  predicate Readable(d: seq<string>) {
    && |d| >= 6 && (|d| == 6 ==> AllNumeric(d))
    && Stoi(d[4]).Some? && Stoi(d[5]).Some? && FontHolds(d[4]) && FontHolds(d[5])
  }

  ghost function PuckOf(d: Fields): set<Point> {
    if |d| == 6 then PuckPixels(Narrow(Stoi(d[0]).value), Narrow(Stoi(d[1]).value)) else {}
  }

  ghost function PaddleOf(d: Fields, player: nat): set<Point> {
    if |d| != 6 then {}
    else if player == 1 then PaddlePixels(Narrow(Stoi(d[2]).value), 0)
    else PaddlePixels(Narrow(Stoi(d[3]).value), 120)
  }

  /** What one frame leaves of a picture: every object is erased where it was and drawn where it is. */
  ghost function Redrawn(picture: set<Point>, last: Fields, now: Fields): set<Point> {
    var puck := (picture + Shape(MIDDLE_LINE)) - PuckOf(last) + PuckOf(now);
    puck - PaddleOf(last, 1) + PaddleOf(now, 1) - PaddleOf(last, 2) + PaddleOf(now, 2)
  }

  /** All that the last frame may have left. */
  ghost function Objects(last: Fields): set<Point> {
    Shape(MIDDLE_LINE) + PuckOf(last) + PaddleOf(last, 1) + PaddleOf(last, 2)
  }

  // ------------------------------------------------------ the objects in coordinates

  /** Two pixels, and three below them, from the narrowed position on; the panel has 128 columns. */
  predicate OnPuck(f: Frame, p: Point) {
    var x, y := f.puckX % 256, f.puckY % 256;
    && x <= 127 && y <= 62 && p.x <= 127
    && ((p.y == y && x <= p.x <= x + 1) || (p.y == y + 1 && x <= p.x <= x + 2))
  }

  /** Columns 4 to 6, eleven rows from the reported one on as far as the screen goes. */
  predicate OnLeftPaddle(f: Frame, p: Point) {
    var y := f.leftY % 256;
    2 <= y <= 57 && 4 <= p.x <= 6 && y <= p.y <= y + 10 && p.y <= 63
  }

  predicate OnRightPaddle(f: Frame, p: Point) {
    var y := f.rightY % 256;
    2 <= y <= 57 && 124 <= p.x <= 126 && y <= p.y <= y + 10 && p.y <= 63
  }

  predicate OnMiddle(p: Point) { p.x == 64 && 8 <= p.y <= 56 }

  /** A row of the picture. */
  lemma LevelShape(x1: int, x2: int, y: int)
    requires x1 <= x2
    ensures forall p :: p in Shape(Line(x1, y, x2, y)) <==> p.y == y && x1 <= p.x <= x2 && p.x < 128
  {
    LinePixelsMeaning(Line(x1, y, x2, y));
    forall p ensures p in Shape(Line(x1, y, x2, y)) <==> p.y == y && x1 <= p.x <= x2 && p.x < 128 {
      LevelStroke(x1, x2, y, p);
    }
  }

  /** A column of the picture. */
  lemma UprightShape(x: int, y1: int, y2: int)
    requires y1 <= y2 && x < 128
    ensures forall p :: p in Shape(Line(x, y1, x, y2)) <==> p.x == x && y1 <= p.y <= y2
  {
    LinePixelsMeaning(Line(x, y1, x, y2));
    forall p ensures p in Shape(Line(x, y1, x, y2)) <==> p.x == x && y1 <= p.y <= y2 {
      UprightStroke(x, y1, y2, p);
    }
  }

  lemma TwoRows(x: byte, y: byte, p: Point)
    ensures p in PuckPixels(x, y) <==>
      x <= 127 && y <= 62 && p.x <= 127
      && ((p.y == y && x <= p.x <= x + 1) || (p.y == y + 1 && x <= p.x <= x + 2))
  {
    LevelShape(x, x + 1, y);
    LevelShape(x, x + 2, y + 1);
  }

  /** The order of the fields. */
  lemma FieldsRead(d: Fields, f: Frame)
    requires ParseFrame(d) == Some(f)
    ensures |d| == 6 && Stoi(d[0]) == Some(f.puckX) && Stoi(d[1]) == Some(f.puckY)
    ensures Stoi(d[2]) == Some(f.leftY) && Stoi(d[3]) == Some(f.rightY)
    ensures Stoi(d[4]) == Some(f.leftScore) && Stoi(d[5]) == Some(f.rightScore)
  {
  }

  lemma PuckInCoordinates(d: Fields, f: Frame)
    requires ParseFrame(d) == Some(f)
    ensures forall p :: p in PuckOf(d) <==> OnPuck(f, p)
  {
    FieldsRead(d, f);
    assert PuckOf(d) == PuckPixels(f.puckX % 256, f.puckY % 256);
    forall p ensures p in PuckOf(d) <==> OnPuck(f, p) {
      TwoRows(f.puckX % 256, f.puckY % 256, p);
    }
  }

  lemma PaddleInCoordinates(y: byte, xAdd: nat, p: Point)
    requires xAdd in {0, 120}
    ensures p in PaddlePixels(y, xAdd) <==>
      2 <= y <= 57 && 4 + xAdd <= p.x <= 6 + xAdd && y <= p.y <= y + 10 && p.y <= 63
  {
    if 2 <= y <= 57 {
      var end := if y <= 53 then y + 10 else 63;
      UprightShape(4 + xAdd, y, end);
      UprightShape(5 + xAdd, y, end);
      UprightShape(6 + xAdd, y, end);
    }
  }

  lemma PaddlesInCoordinates(d: Fields, f: Frame)
    requires ParseFrame(d) == Some(f)
    ensures forall p :: p in PaddleOf(d, 1) <==> OnLeftPaddle(f, p)
    ensures forall p :: p in PaddleOf(d, 2) <==> OnRightPaddle(f, p)
  {
    FieldsRead(d, f);
    assert PaddleOf(d, 1) == PaddlePixels(f.leftY % 256, 0) && PaddleOf(d, 2) == PaddlePixels(f.rightY % 256, 120);
    forall p ensures (p in PaddleOf(d, 1) <==> OnLeftPaddle(f, p)) && (p in PaddleOf(d, 2) <==> OnRightPaddle(f, p)) {
      PaddleInCoordinates(f.leftY % 256, 0, p);
      PaddleInCoordinates(f.rightY % 256, 120, p);
    }
  }

  /** The objects of a frame, and the middle line. */
  lemma ObjectsInCoordinates(d: Fields, f: Frame)
    requires ParseFrame(d) == Some(f)
    ensures forall p ::
      p in Objects(d) <==> OnMiddle(p) || OnPuck(f, p) || OnLeftPaddle(f, p) || OnRightPaddle(f, p)
  {
    UprightShape(64, 8, 56);
    PuckInCoordinates(d, f);
    PaddlesInCoordinates(d, f);
  }

  /** What redrawing leaves of an empty screen: erasing an object also erases what lies under it. */
  predicate Remains(last: Option<Frame>, now: Frame, p: Point) {
    || OnLeftPaddle(now, p) || OnRightPaddle(now, p)
    || (!(last.Some? && (OnLeftPaddle(last.value, p) || OnRightPaddle(last.value, p)))
        && (OnPuck(now, p) || (OnMiddle(p) && !(last.Some? && OnPuck(last.value, p)))))
  }

  lemma RedrawnInCoordinates(last: Fields, now: Fields, f: Frame)
    requires ParseFrame(now) == Some(f)
    ensures forall p :: p in Redrawn({}, last, now) <==> Remains(ParseFrame(last), f, p)
  {
    UprightShape(64, 8, 56);
    PuckInCoordinates(now, f);
    PaddlesInCoordinates(now, f);
    if ParseFrame(last).Some? {
      PuckInCoordinates(last, ParseFrame(last).value);
      PaddlesInCoordinates(last, ParseFrame(last).value);
    }
  }

  /** Whatever was lit within the objects of the last frame makes no difference to the next picture. */
  lemma RedrawForgets(picture: set<Point>, last: Fields, now: Fields)
    requires forall p: Point :: p.y / 8 != 0 && p in picture ==> p in Objects(last)
    ensures forall p: Point :: p.y / 8 != 0 ==> (p in Redrawn(picture, last, now) <==> p in Redrawn({}, last, now))
    ensures forall p: Point :: p.y / 8 != 0 && p in Redrawn(picture, last, now) ==> p in Objects(now)
  {
  }

  /** Score texts of a frame: the two numbers at the two ends of a line of 16 characters. */
  function ScoreText(left: string, right: string): string {
    var spaceCount := Narrow(14 - (if |left| > 1 then |left| - 1 else 0) - (if |right| > 1 then |right| - 1 else 0));
    left + seq(spaceCount, _ => ' ') + right
  }

  lemma ScoreTextFillsLine(left: string, right: string)
    requires left != "" && right != "" && |left| + |right| <= 16
    ensures var t := ScoreText(left, right);
            && |t| == 16 && t[..|left|] == left && t[16 - |right|..] == right
            && forall i :: |left| <= i < 16 - |right| ==> t[i] == ' '
  {
  }

  /** The kept scores are both zero, or one is behind. */
  predicate ScoresDue(kept1: int, kept2: int, left: int, right: int) {
    (kept1 == 0 && kept2 == 0) || kept1 < left || kept2 < right
  }

  /** A text that fills the line leaves nothing of what was there. */
  lemma FullRow(font: Font, text: seq<nat>, row: seq<byte>)
    requires |text| == 16 && |row| == 128 && forall i :: 0 <= i < 16 ==> text[i] < 128
    ensures TextRow(font, text, false, row) == TextColumns(font, text, false)
  {
  }

  class GameScreen {
    const display: Display
    var runtimeDataSplit: Fields
    var runtimeDataSplitLast: Fields
    var scorePlayer1: int
    var scorePlayer2: int
    var ledFlashTrigger: nat

    ghost predicate Valid()
      reads this, display.dev, display.dev.pages, display.bus
    {
      && display.Valid()
      && NoGhosts()
    }

    /** Below the score page only the middle line and the objects of the last frame are lit. */
    ghost predicate NoGhosts()
      reads this, display.dev
    {
      forall p: Point :: p.y / 8 != 0 && p in display.dev.picture ==> p in Objects(runtimeDataSplitLast)
    }

    constructor (bus: Bus, font: Font)
      requires bus.controller.Ready()
      ensures Valid() && display.bus == bus && fresh(display.dev) && fresh(display.dev.pages)
      ensures display.dev.picture == {} && runtimeDataSplitLast == []
    {
      display := new Display(bus, font);
      runtimeDataSplit, runtimeDataSplitLast := [], [];
      scorePlayer1, scorePlayer2 := 0, 0;
      ledFlashTrigger := 0;
    }

    /** The screen starts with a copy of the other, still blank, display. */
    method SetDisplayDev(other: Display)
      requires Valid() && other.Valid() && display.bus == other.bus && other.dev.picture == {}
      modifies display.dev, display.dev.pages
      ensures Valid() && display.dev.picture == {}
      ensures old(other.Shown()) ==> display.Shown()
    {
      display.SetDisplayDev(other);
    }

    /** Only the scores start over; the strokes still on the screen stay known. */
    method Reset()
      requires Valid()
      modifies this`scorePlayer1, this`scorePlayer2
      ensures Valid() && scorePlayer1 == 0 && scorePlayer2 == 0
    {
      scorePlayer1 := 0;
      scorePlayer2 := 0;
    }

    method DrawPuck(x: byte, y: byte, clear: bool)
      requires display.Valid()
      modifies display.dev, display.dev.pages
      ensures display.Valid() && display.dev.picture == Painted(old(display.dev.picture), PuckPixels(x, y), clear)
    {
      if 0 <= x <= 127 && 0 <= y <= 62 {
        display.DrawLine(Line(x, y, x + 1, y), clear);
        display.DrawLine(Line(x, y + 1, x + 2, y + 1), clear);
        PaintedTwice(old(display.dev.picture), Shape(Line(x, y, x + 1, y)), Shape(Line(x, y + 1, x + 2, y + 1)), clear);
      }
    }

    method RenderPuck(clear: bool)
      requires display.Valid()
      modifies display.dev, display.dev.pages
      ensures display.Valid()
      ensures display.dev.picture
           == Painted(old(display.dev.picture), PuckOf(if clear then runtimeDataSplitLast else runtimeDataSplit), clear)
      ensures var f := ParseFrame(if clear then runtimeDataSplitLast else runtimeDataSplit);
        f.Some? ==> forall p :: p in display.dev.picture <==>
          if clear then p in old(display.dev.picture) && !OnPuck(f.value, p)
          else p in old(display.dev.picture) || OnPuck(f.value, p)
    {
      var data := if clear then runtimeDataSplitLast else runtimeDataSplit;
      if ParseFrame(data).Some? {
        PuckInCoordinates(data, ParseFrame(data).value);
      }
      if |data| == 6 {
        DrawPuck(Narrow(Stoi(data[0]).value), Narrow(Stoi(data[1]).value), clear);
      }
    }

    method DrawPaddle(y: byte, xAdd: nat, clear: bool)
      requires display.Valid() && xAdd <= 120
      modifies display.dev, display.dev.pages
      ensures display.Valid() && display.dev.picture == Painted(old(display.dev.picture), PaddlePixels(y, xAdd), clear)
    {
      if 2 <= y <= 57 {
        var drawYCoord := if y <= 53 then y + 10 else 63;
        ghost var before := display.dev.picture;
        ghost var a, b := Shape(PaddleLine(y, 4 + xAdd)), Shape(PaddleLine(y, 5 + xAdd));
        ghost var c := Shape(PaddleLine(y, 6 + xAdd));
        display.DrawLine(Line(4 + xAdd, y, 4 + xAdd, drawYCoord), clear);
        display.DrawLine(Line(5 + xAdd, y, 5 + xAdd, drawYCoord), clear);
        PaintedTwice(before, a, b, clear);
        display.DrawLine(Line(6 + xAdd, y, 6 + xAdd, drawYCoord), clear);
        PaintedTwice(before, a + b, c, clear);
      }
    }

    method RenderPaddle(player: nat, clear: bool)
      requires display.Valid() && player in {1, 2}
      modifies display.dev, display.dev.pages
      ensures display.Valid()
      ensures display.dev.picture
           == Painted(old(display.dev.picture),
                      PaddleOf(if clear then runtimeDataSplitLast else runtimeDataSplit, player), clear)
      ensures var f := ParseFrame(if clear then runtimeDataSplitLast else runtimeDataSplit);
        f.Some? ==> forall p ::
          var hit := if player == 1 then OnLeftPaddle(f.value, p) else OnRightPaddle(f.value, p);
          p in display.dev.picture <==>
            if clear then p in old(display.dev.picture) && !hit else p in old(display.dev.picture) || hit
    {
      var data := if clear then runtimeDataSplitLast else runtimeDataSplit;
      if ParseFrame(data).Some? {
        PaddlesInCoordinates(data, ParseFrame(data).value);
      }
      if |data| == 6 {
        var y := Narrow(if player == 1 then Stoi(data[2]).value else Stoi(data[3]).value);
        DrawPaddle(y, if player == 1 then 0 else 120, clear);
      }
    }

    /** The score line is written when both scores are still zero or one has risen. */
    method RenderScores()
      requires display.Valid() && Readable(runtimeDataSplit)
      modifies this`scorePlayer1, this`scorePlayer2, this`ledFlashTrigger, display.dev, display.dev.pages, display.bus
      ensures display.Valid()
      ensures forall p: Point :: p.y / 8 != 0 ==> (p in display.dev.picture <==> p in old(display.dev.picture))
      ensures Scored(runtimeDataSplit)
      ensures if ScoresDue(old(scorePlayer1), old(scorePlayer2),
                           Stoi(runtimeDataSplit[4]).value, Stoi(runtimeDataSplit[5]).value)
              then ledFlashTrigger == 3 && display.dev.Row(0)
                == TextRow(display.font, Fitting(Codes(ScoreText(runtimeDataSplit[4], runtimeDataSplit[5]))), false,
                           old(display.dev.Row(0)))
              else unchanged(this) && unchanged(display.dev) && unchanged(display.dev.pages)
    {
      if (scorePlayer1 == 0 && scorePlayer2 == 0)
         || scorePlayer1 < Stoi(runtimeDataSplit[4]).value || scorePlayer2 < Stoi(runtimeDataSplit[5]).value
      {
        ledFlashTrigger := 3;
        scorePlayer1 := Stoi(runtimeDataSplit[4]).value % 0x1_0000;
        scorePlayer2 := Stoi(runtimeDataSplit[5]).value % 0x1_0000;
        PrintScores(runtimeDataSplit[4], runtimeDataSplit[5]);
      }
    }

    /** The two scores go to page 0; together with spaces they fill it. */
    method PrintScores(left: string, right: string)
      requires display.Valid() && FontHolds(left) && FontHolds(right) && left != "" && right != ""
      modifies display.dev, display.dev.pages, display.bus
      ensures display.Valid()
      ensures forall p: Point :: p.y / 8 != 0 ==> (p in display.dev.picture <==> p in old(display.dev.picture))
      ensures display.dev.Row(0)
           == TextRow(display.font, Fitting(Codes(ScoreText(left, right))), false, old(display.dev.Row(0)))
      ensures |left| + |right| <= 16 ==>
        display.dev.Row(0) == TextColumns(display.font, Codes(ScoreText(left, right)), false)
    {
      var scores := ScoreText(left, right);
      ghost var row := display.dev.Row(0);
      display.RenderText(0, Codes(scores));
      if |left| + |right| <= 16 {
        ScoreTextFillsLine(left, right);
        FullRow(display.font, Codes(scores), row);
      }
    }

    /** The middle line, then every object erased where it was and drawn where it is. */
    method RenderObjects()
      requires display.Valid()
      modifies display.dev, display.dev.pages
      ensures display.Valid()
      ensures display.dev.picture == Redrawn(old(display.dev.picture), runtimeDataSplitLast, runtimeDataSplit)
    {
      display.DrawLine(MIDDLE_LINE, false);
      RenderPuck(true);
      RenderPuck(false);
      RenderPaddle(1, true);
      RenderPaddle(1, false);
      RenderPaddle(2, true);
      RenderPaddle(2, false);
    }

    /** Objects and scores of a frame that has been split. */
    method RenderFrame()
      requires Valid() && Readable(runtimeDataSplit)
      modifies this`scorePlayer1, this`scorePlayer2, this`ledFlashTrigger, display.dev, display.dev.pages, display.bus
      ensures display.Valid() && Exact(runtimeDataSplitLast, runtimeDataSplit) && Scored(runtimeDataSplit)
    {
      ghost var before := display.dev.picture;
      RenderObjects();
      RenderScores();
      RedrawForgets(before, runtimeDataSplitLast, runtimeDataSplit);
    }

    /** The scores kept, and the line of 16 characters they fill when they are due. */
    twostate predicate Scored(now: Fields)
      requires Readable(now) && display.dev.Shaped()
      reads this, display.dev.pages
    {
      var left, right := Stoi(now[4]).value, Stoi(now[5]).value;
      if ScoresDue(old(scorePlayer1), old(scorePlayer2), left, right) then
        && scorePlayer1 == left % 0x1_0000 && scorePlayer2 == right % 0x1_0000
        && (|now[4]| + |now[5]| <= 16 ==>
              display.dev.Row(0) == TextColumns(display.font, Codes(ScoreText(now[4], now[5])), false))
      else
        scorePlayer1 == old(scorePlayer1) && scorePlayer2 == old(scorePlayer2)
    }

    /** Below the score page the picture is what drawing this frame after the last one on an empty screen gives. */
    ghost predicate Exact(last: Fields, now: Fields)
      reads display.dev
    {
      && (forall p: Point :: p.y / 8 != 0 ==> (p in display.dev.picture <==> p in Redrawn({}, last, now)))
      && (forall p: Point :: p.y / 8 != 0 && p in display.dev.picture ==> p in Objects(now))
    }

    /** Below the score page exactly what redrawing from one frame to the next leaves is lit. */
    ghost predicate Shows(last: Option<Frame>, now: Frame)
      reads display.dev
    {
      forall p: Point :: p.y / 8 != 0 ==> (p in display.dev.picture <==> Remains(last, now, p))
    }

    /** The frame text is split into the fields of this frame. */
    method TakeFields(gameData: string) returns (gameData': string)
      requires Readable(Pieces(gameData, ","))
      modifies this`runtimeDataSplit
      ensures runtimeDataSplit == Pieces(gameData, ",")
    {
      var split;
      gameData', split := Split(gameData, ",", []);
      assert [] + Pieces(gameData, ",") == Pieces(gameData, ",");
      runtimeDataSplit := split;
    }

    /** One frame. */
    method Render(gameData: string) returns (gameData': string)
      requires Valid() && Readable(Pieces(gameData, ","))
      modifies this, display.dev, display.dev.pages, display.bus
      ensures Valid() && display.Shown() && runtimeDataSplitLast == Pieces(gameData, ",")
      ensures Exact(old(runtimeDataSplitLast), Pieces(gameData, ",")) && Scored(Pieces(gameData, ","))
      ensures var now := ParseFrame(Pieces(gameData, ","));
        now.Some? ==>
          var left, right := now.value.leftScore, now.value.rightScore;
          if old(scorePlayer1) == old(scorePlayer2) == 0 || old(scorePlayer1) < left || old(scorePlayer2) < right
          then scorePlayer1 == left % 65536 && scorePlayer2 == right % 65536
          else scorePlayer1 == old(scorePlayer1) && scorePlayer2 == old(scorePlayer2)
      ensures var last, now := ParseFrame(old(runtimeDataSplitLast)), ParseFrame(Pieces(gameData, ","));
        now.Some? ==> Shows(last, now.value)
    {
      ghost var last, now := runtimeDataSplitLast, Pieces(gameData, ",");
      gameData' := TakeFields(gameData);
      RenderFrame();
      runtimeDataSplitLast, runtimeDataSplit := runtimeDataSplit, [];
      display.ShowBuffer();
      if ParseFrame(now).Some? {
        FieldsRead(now, ParseFrame(now).value);
        RedrawnInCoordinates(last, now, ParseFrame(now).value);
      }
    }
  }
}
