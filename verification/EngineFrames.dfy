/** What the game screen makes of the frames the game engine reports. */
module EngineFrames {
  import opened Wrappers
  import opened Text
  import opened Display
  import opened GameScreen
  import opened Pong

  /** The step of render_frame_no_dt. */
  const FRAME_STEP := 0.03

  lemma TruncateBounds(r: real, lo: int, hi: int)
    requires lo as real - 1.0 < r < hi as real + 1.0 && lo <= 0 <= hi
    ensures lo <= Truncate(r) <= hi
  {
  }

  lemma ItoaIsAscii(n: int)
    ensures FontHolds(Itoa(n))
  {
    var d := Digits(if n < 0 then -n else n);
    assert forall i :: 0 <= i < |d| ==> IsDigit(d[i]);
  }

  /** Narrowing to 8 bits maps no puck that is off the screen to a place where it is drawn, and no paddle off it. */
  lemma NarrowedFrame(f: Frame)
    requires -2 <= f.puckX <= 130 && -1 <= f.puckY <= 65 && 7 <= f.leftY <= 57 && 7 <= f.rightY <= 57
    ensures PaddleDrawn(Narrow(f.leftY)) && PaddleDrawn(Narrow(f.rightY))
    ensures PuckDrawn(Narrow(f.puckX), Narrow(f.puckY)) <==> 0 <= f.puckX <= 127 && 0 <= f.puckY <= 62
    ensures PuckDrawn(Narrow(f.puckX), Narrow(f.puckY)) ==> Narrow(f.puckX) == f.puckX && Narrow(f.puckY) == f.puckY
  {
  }

  /** In every reachable game the puck stays near the screen, and the reported numbers with it. */
  lemma ReportBounds(game: Game)
    requires game.Valid(FRAME_STEP)
    ensures -1.6 <= game.puck.position.y <= 65.6 && -2.0 <= game.puck.position.x <= 130.0
    ensures var f := game.Report();
            -2 <= f.puckX <= 130 && -1 <= f.puckY <= 65 && 7 <= f.leftY <= 57 && 7 <= f.rightY <= 57
  {
    TruncateBounds(game.puck.position.x, -2, 130);
    TruncateBounds(game.puck.position.y, -1, 65);
  }

  /** Every reported frame is one the screen accepts, and reads as the same numbers. */
  lemma EngineToScreen(game: Game)
    requires game.Valid(FRAME_STEP) && game.left.score < 0x8000_0000 && game.right.score < 0x8000_0000
    ensures var fields := Pieces(FrameText(game.Report()), ",");
            && |fields| == 6 && Readable(fields) && ParseFrame(fields) == Some(game.Report())
            && fields == [Itoa(Truncate(game.puck.position.x)), Itoa(Truncate(game.puck.position.y)),
                          Itoa(Truncate(game.left.position.y)), Itoa(Truncate(game.right.position.y)),
                          Itoa(game.left.score), Itoa(game.right.score)]
            && PaddleDrawn(Narrow(Stoi(fields[2]).value)) && PaddleDrawn(Narrow(Stoi(fields[3]).value))
  {
    var f := game.Report();
    ReportBounds(game);
    FrameRoundTrip(f);
    FrameOrder(f);
    ItoaIsAscii(f.leftScore);
    ItoaIsAscii(f.rightScore);
    NarrowedFrame(f);
  }
}
