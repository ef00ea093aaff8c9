/** The whole console: the main loop drives the engine and shows what the engine reports. */
module Console {
  import opened Wrappers
  import opened Text
  import opened AppServer
  import opened Ssd1306
  import opened Pong
  import opened EngineFrames
  import opened MainLoop

  /**
   What json.loads makes of the parameters the main loop passes. The stop parameter is
   no JSON text: the engine throws before it changes anything, and keeps playing.
   */
  datatype Json = Json(decode: Parameter -> Input)
  {
    ghost predicate Valid() {
      forall p :: Known(p) ==> decode(p) == Meaning(p)
    }
  }

  /** A start, or a move of player 1 or 2. */
  predicate Known(p: Parameter) { p.StartParameter? || !p.player.Other? }

  /** The input a parameter stands for. */
  function Meaning(p: Parameter): Input
    requires Known(p)
  {
    match p
    case StartParameter(mode) => Input(false, if mode == Single then "single" else "multi", "none", "none")
    case MoveParameter(One, direction) => Input(false, "", Word(direction), "none")
    case MoveParameter(Two, direction) => Input(false, "", "none", Word(direction))
  }

  function Word(direction: Direction): string {
    match direction
    case Up => "up"
    case Down => "down"
    case Still => "none"
  }

  /** The input of a paddle request: this player's paddle in this direction, and nothing else. */
  function PaddleInput(player: Player, id: nat): Input {
    var word := if id == AS_REQ_PADDLE_UP then "up" else "down";
    if player == One then Input(false, "", word, "none") else Input(false, "", "none", word)
  }

  class Console {
    const loop: MainLoop
    const engine: Game
    const math: Math
    const json: Json

    /** The library functions do what the engine needs; they never change. */
    ghost predicate Lawful() { math.Valid() && json.Valid() }

    ghost predicate Valid()
      reads loop, loop.requests, loop.screens, loop.screens.title, loop.screens.title.display.dev,
        loop.screens.title.display.dev.pages, loop.screens.game, loop.screens.game.display.dev,
        loop.screens.game.display.dev.pages, loop.screens.bus,
        engine, engine.left, engine.left.position, engine.right, engine.right.position,
        engine.puck, engine.puck.position, engine.puck.velocity
    {
      && loop.Valid() && loop.requests.ParametersKnown()
      && engine.Valid(FRAME_STEP) && engine.state != Quit
      && (loop.requests.gameRunning && !loop.requests.screenInit ==> engine.state == Play)
    }

    constructor (bus: Bus, font: Font, table: Title.CubeTable, math: Math, json: Json)
      requires bus.controller.operands == 0 && font[0x1F] == Zeros(8) && math.Valid() && json.Valid()
      modifies bus
      ensures Lawful() && Valid() && !loop.requests.gameRunning && engine.state == Splash
    {
      var l := new MainLoop(bus, font, table);
      var e := new Game(math, FRAME_STEP);
      loop, engine := l, e;
      this.math, this.json := math, json;
    }

    /** These fields read as the numbers of the engine. */
    ghost predicate Reports(fields: seq<string>)
      reads engine, engine.left, engine.left.position, engine.right, engine.right.position
      reads engine.puck, engine.puck.position
    {
      ParseFrame(fields) == Some(engine.Report())
    }

    /** The engine is where a call with this parameter takes it from this scene; it stays there without a call. */
    ghost predicate Called(due: Option<Parameter>, before: Scene)
      reads engine, engine.left, engine.left.position, engine.right, engine.right.position
      reads engine.puck, engine.puck.position, engine.puck.velocity
      reads engine.puck.left, engine.puck.left.position, engine.puck.right, engine.puck.right.position
    {
      match due
      case None => engine.Now() == before
      case Some(p) => Known(p) && engine.SteppedFrom(math, Meaning(p), FRAME_STEP, before)
    }

    /** One call of the engine with a parameter it can read. */
    method Call(p: Parameter) returns (frame: string)
      requires Lawful() && Known(p) && engine.Valid(FRAME_STEP) && engine.state != Quit
      requires engine.left.score < 0x7FFF_FFFF && engine.right.score < 0x7FFF_FFFF
      modifies engine, engine.left, engine.left.position, engine.right, engine.right.position,
        engine.puck, engine.puck.position, engine.puck.velocity
      ensures engine.Valid(FRAME_STEP) && Called(Some(p), old(engine.Now()))
      ensures p.StartParameter? || old(engine.state) == Play ==> engine.state == Play
      ensures engine.state != Quit
      ensures old(engine.state) == Play ==> AcceptableFrame(frame) && Reports(Pieces(frame, ","))
    {
      frame := engine.Step(math, json.decode(p), FRAME_STEP);
      EngineToScreen(engine);
    }

    /** The engine can be called: it plays if a running game has had its first call. */
    ghost predicate Prepared()
      reads loop.requests, engine, engine.left, engine.left.position, engine.right, engine.right.position,
        engine.puck, engine.puck.position, engine.puck.velocity
    {
      && loop.requests.ParametersKnown() && engine.Valid(FRAME_STEP) && engine.state != Quit
      && (loop.requests.selectedScreen == GameScreen && !loop.requests.screenInit ==> engine.state == Play)
    }

    /** What the interpreter returns in this round: nothing but while a game is shown. */
    method CallEngine() returns (frame: string)
      requires Lawful() && engine.left.score < 0x7FFF_FFFF && engine.right.score < 0x7FFF_FFFF
      requires Prepared()
      modifies engine, engine.left, engine.left.position, engine.right, engine.right.position,
        engine.puck, engine.puck.position, engine.puck.velocity
      ensures engine.Valid(FRAME_STEP) && engine.state != Quit
      ensures Called(loop.Parameter(), old(engine.Now()))
      ensures loop.requests.selectedScreen == GameScreen ==> engine.state == Play
      ensures loop.requests.selectedScreen == GameScreen && !loop.requests.screenInit ==>
        AcceptableFrame(frame) && Reports(Pieces(frame, ","))
    {
      frame := "";
      if loop.requests.selectedScreen == GameScreen {
        if loop.requests.screenInit {
          frame := Call(loop.requests.paramStart);
        } else {
          frame := Call(loop.requests.paramMove);
        }
      }
    }

    /** The engine keeps its invariant and its numbers as long as none of its parts is written. */
    twostate lemma EngineKept()
      requires old(engine.Valid(FRAME_STEP))
      requires unchanged(engine, engine.left, engine.left.position, engine.right, engine.right.position)
      requires unchanged(engine.puck, engine.puck.position, engine.puck.velocity)
      ensures engine.Valid(FRAME_STEP) && engine.Now() == old(engine.Now()) && engine.Report() == old(engine.Report())
    {
    }

    /** The pending request is handled; a game that was started waits for its first frame. */
    method Handle(player: Player)
      requires Valid() && loop.requests.contentLength <= 2046 && !player.Other?
      modifies loop.requests, loop.requests.exchangeBuffer
      ensures loop.Valid() && Prepared()
      ensures loop.requests.State() == old(loop.AfterRequest()) && engine.Now() == old(engine.Now())
      ensures loop.Parameter() == old(loop.ParameterDue(player))
    {
      loop.HandleRequest(player);
      EngineKept();
    }

    /** The pending request is handled, and the engine is called as it asks. */
    method Advance(player: Player) returns (frame: string)
      requires Lawful() && Valid() && loop.requests.contentLength <= 2046 && !player.Other?
      requires engine.left.score < 0x7FFF_FFFF && engine.right.score < 0x7FFF_FFFF
      modifies loop.requests, loop.requests.exchangeBuffer,
        engine, engine.left, engine.left.position, engine.right, engine.right.position,
        engine.puck, engine.puck.position, engine.puck.velocity
      ensures loop.Valid() && loop.requests.ParametersKnown() && loop.requests.State() == old(loop.AfterRequest())
      ensures engine.Valid(FRAME_STEP) && engine.state != Quit
      ensures Called(old(loop.ParameterDue(player)), old(engine.Now()))
      ensures loop.requests.gameRunning ==> engine.state == Play
      ensures loop.requests.selectedScreen == GameScreen && !loop.requests.screenInit ==>
        AcceptableFrame(frame) && Reports(Pieces(frame, ","))
    {
      Handle(player);
      frame := CallEngine();
    }

    /** Rendering touches nothing of the engine. */
    method Show(frame: string, wifi: WifiEvent, ghost due: Option<Parameter>, ghost before: Scene)
      requires loop.Valid() && loop.Renderable(loop.requests.State(), frame) && engine.Valid(FRAME_STEP)
      requires Called(due, before)
      modifies loop.requests`screenInit,
        loop.screens, loop.screens.title, loop.screens.title.display.dev, loop.screens.title.display.dev.pages,
        loop.screens.game, loop.screens.game.display.dev, loop.screens.game.display.dev.pages, loop.screens.bus
      ensures engine.Valid(FRAME_STEP) && engine.state == old(engine.state) && engine.Report() == old(engine.Report())
      ensures Called(due, before)
      ensures loop.Valid() && loop.requests.ParametersKnown() == old(loop.requests.ParametersKnown())
      ensures loop.requests.State() == old(loop.requests.State()).(screenInit := loop.requests.screenInit)
      ensures loop.requests.selectedScreen == MainScreen ==> loop.screens.Mirrors(false)
      ensures loop.requests.selectedScreen == GameScreen ==> !loop.requests.screenInit
      ensures loop.requests.selectedScreen == GameScreen && !old(loop.requests.screenInit) ==>
        && loop.screens.Mirrors(true) && loop.screens.game.runtimeDataSplitLast == Pieces(frame, ",")
        && (ParseFrame(Pieces(frame, ",")).Some? ==>
             loop.screens.game.Shows(old(ParseFrame(loop.screens.game.runtimeDataSplitLast)),
                                     ParseFrame(Pieces(frame, ",")).value))
    {
      loop.RenderRound(frame, wifi);
      EngineKept();
    }

    /** Request, engine and screen, one after the other. */
    method Turn(player: Player, wifi: WifiEvent)
      requires Lawful() && Valid() && loop.requests.contentLength <= 2046 && !player.Other?
      requires engine.left.score < 0x7FFF_FFFF && engine.right.score < 0x7FFF_FFFF
      modifies loop.requests, loop.requests.exchangeBuffer,
        loop.screens, loop.screens.title, loop.screens.title.display.dev, loop.screens.title.display.dev.pages,
        loop.screens.game, loop.screens.game.display.dev, loop.screens.game.display.dev.pages, loop.screens.bus,
        engine, engine.left, engine.left.position, engine.right, engine.right.position,
        engine.puck, engine.puck.position, engine.puck.velocity
      ensures Valid()
      ensures Called(old(loop.ParameterDue(player)), old(engine.Now()))
      ensures loop.requests.State() == old(loop.AfterRequest()).(screenInit := loop.requests.screenInit)
      ensures loop.requests.selectedScreen == MainScreen ==> loop.screens.Mirrors(false)
      ensures loop.requests.selectedScreen == GameScreen && !old(loop.AfterRequest()).screenInit ==>
        && loop.screens.Mirrors(true) && Reports(loop.screens.game.runtimeDataSplitLast)
        && loop.screens.game.Shows(old(ParseFrame(loop.screens.game.runtimeDataSplitLast)), engine.Report())
    {
      ghost var due, before := loop.ParameterDue(player), engine.Now();
      var frame := Advance(player);
      Show(frame, wifi, due, before);
    }

    /**
     One round. The engine takes one step with the input that the pending request, or its absence, stands
     for. While a game is shown the panel mirrors the game screen, and the fields drawn are the numbers of
     the engine after that step; the invariants of both, and of the display, go on.
     */
    method Round(player: Player, wifi: WifiEvent)
      requires Lawful() && Valid() && loop.requests.contentLength <= 2046 && !player.Other?
      requires engine.left.score < 0x7FFF_FFFF && engine.right.score < 0x7FFF_FFFF
      modifies loop.requests, loop.requests.exchangeBuffer,
        loop.screens, loop.screens.title, loop.screens.title.display.dev, loop.screens.title.display.dev.pages,
        loop.screens.game, loop.screens.game.display.dev, loop.screens.game.display.dev.pages, loop.screens.bus,
        engine, engine.left, engine.left.position, engine.right, engine.right.position,
        engine.puck, engine.puck.position, engine.puck.velocity
      ensures Valid()
      ensures Called(old(loop.ParameterDue(player)), old(engine.Now()))
      ensures old(loop.requests.MovePending() && !loop.requests.screenInit) ==>
        engine.PlayedFrom(math, PaddleInput(player, old(loop.requests.requestId)), FRAME_STEP, old(engine.Now()))
      ensures PaddlesAsAsked(player)
      ensures loop.requests.State() == old(loop.AfterRequest()).(screenInit := loop.requests.screenInit)
      ensures loop.requests.selectedScreen == MainScreen ==> loop.screens.Mirrors(false)
      ensures loop.requests.selectedScreen == GameScreen && !old(loop.AfterRequest()).screenInit ==>
        && loop.screens.Mirrors(true) && Reports(loop.screens.game.runtimeDataSplitLast)
        && loop.screens.game.Shows(old(ParseFrame(loop.screens.game.runtimeDataSplitLast)), engine.Report())
    {
      Turn(player, wifi);
      HeightsOfRound(player);
    }

    /**
     Up is towards row 0. A pending move takes exactly its player's paddle 2.4 up or down, as far as the
     screen goes; without a request no paddle moves but an automatic one; and that one, whatever is
     requested, goes 1.65 towards the height of an approaching puck that is further off than that.
     */
    twostate predicate PaddlesAsAsked(player: Player)
      requires loop.requests.exchangeBuffer.Length == EXCHANGE_SIZE && old(loop.requests.contentLength) <= 2046
      reads engine, engine.left, engine.left.position, engine.right, engine.right.position
    {
      && (old(loop.requests.MovePending() && !loop.requests.screenInit) ==>
           var step := if old(loop.requests.requestId) == AS_REQ_PADDLE_UP then -2.4 else 2.4;
           && (player == Two ==> engine.right.position.y == Clamp(old(engine.right.position.y) + step))
           && (player == One ==> engine.right.position.y == old(engine.right.position.y))
           && (!old(engine.left.isAuto) ==>
                engine.left.position.y == if player == One then Clamp(old(engine.left.position.y) + step)
                                          else old(engine.left.position.y)))
      && (old(loop.requests.status != Processing && loop.requests.gameRunning && !loop.requests.screenInit) ==>
           && engine.right.position.y == old(engine.right.position.y)
           && (!old(engine.left.isAuto) ==> engine.left.position.y == old(engine.left.position.y)))
      && (old(loop.AfterRequest().gameRunning && !loop.AfterRequest().screenInit && engine.left.isAuto) ==>
           var y, vx := old(engine.left.position.y), old(engine.puck.velocity.x);
           var puckY, away := old(engine.puck.position.y), old(engine.left.position.x - engine.puck.position.x);
           var approaches := (vx > 0.0 && away > 0.0) || (vx < 0.0 && away < 0.0) || (vx == 0.0 && away == 0.0);
           engine.left.position.y == Clamp(if !approaches || -1.65 <= puckY - y <= 1.65 then y
                                           else if puckY < y then y - 1.65 else y + 1.65))
    }

    /** The heights of the paddles follow from the call that was due. */
    twostate lemma HeightsOfRound(player: Player)
      requires old(Valid()) && old(loop.requests.contentLength) <= 2046 && !player.Other?
      requires Called(old(loop.ParameterDue(player)), old(engine.Now()))
      ensures PaddlesAsAsked(player)
    {
      HeightsMoved(player);
      HeightsKept(player);
      HeightFollowed(player);
    }

    /** A pending move: exactly that paddle, in that direction. */
    twostate lemma HeightsMoved(player: Player)
      requires old(Valid()) && old(loop.requests.contentLength) <= 2046 && !player.Other?
      requires Called(old(loop.ParameterDue(player)), old(engine.Now()))
      ensures old(loop.requests.MovePending() && !loop.requests.screenInit) ==>
        var step := if old(loop.requests.requestId) == AS_REQ_PADDLE_UP then -2.4 else 2.4;
        && (player == Two ==> engine.right.position.y == Clamp(old(engine.right.position.y) + step))
        && (player == One ==> engine.right.position.y == old(engine.right.position.y))
        && (!old(engine.left.isAuto) ==>
             engine.left.position.y == if player == One then Clamp(old(engine.left.position.y) + step)
                                       else old(engine.left.position.y))
    {
      InputThen(player);
      SceneThen();
      var due, before := old(loop.ParameterDue(player)), old(engine.Now());
      if old(loop.requests.MovePending() && !loop.requests.screenInit) {
        HeightsAfter(due.value, before);
      }
    }

    /** No request: nobody moves but an automatic paddle. */
    twostate lemma HeightsKept(player: Player)
      requires old(Valid()) && old(loop.requests.contentLength) <= 2046 && !player.Other?
      requires Called(old(loop.ParameterDue(player)), old(engine.Now()))
      ensures old(loop.requests.status != Processing && loop.requests.gameRunning && !loop.requests.screenInit) ==>
        && engine.right.position.y == old(engine.right.position.y)
        && (!old(engine.left.isAuto) ==> engine.left.position.y == old(engine.left.position.y))
    {
      InputThen(player);
      SceneThen();
      var due, before := old(loop.ParameterDue(player)), old(engine.Now());
      if old(loop.requests.status != Processing && loop.requests.gameRunning && !loop.requests.screenInit) {
        HeightsAfter(due.value, before);
      }
    }

    /** An automatic paddle follows an approaching puck, whatever is requested. */
    twostate lemma HeightFollowed(player: Player)
      requires old(Valid()) && old(loop.requests.contentLength) <= 2046 && !player.Other?
      requires Called(old(loop.ParameterDue(player)), old(engine.Now()))
      ensures old(loop.AfterRequest().gameRunning && !loop.AfterRequest().screenInit && engine.left.isAuto) ==>
        var y, vx := old(engine.left.position.y), old(engine.puck.velocity.x);
        var puckY, away := old(engine.puck.position.y), old(engine.left.position.x - engine.puck.position.x);
        var approaches := (vx > 0.0 && away > 0.0) || (vx < 0.0 && away < 0.0) || (vx == 0.0 && away == 0.0);
        engine.left.position.y == Clamp(if !approaches || -1.65 <= puckY - y <= 1.65 then y
                                        else if puckY < y then y - 1.65 else y + 1.65)
    {
      InputThen(player);
      SceneThen();
      var due, before := old(loop.ParameterDue(player)), old(engine.Now());
      if old(loop.AfterRequest().gameRunning && !loop.AfterRequest().screenInit && engine.left.isAuto) {
        HeightsAfter(due.value, before);
      }
    }

    twostate lemma InputThen(player: Player)
      requires old(Valid()) && old(loop.requests.contentLength) <= 2046 && !player.Other?
      ensures old(loop.requests.MovePending() && !loop.requests.screenInit) ==>
        old(loop.ParameterDue(player))
        == Some(MoveParameter(player, if old(loop.requests.requestId) == AS_REQ_PADDLE_UP then Up else Down))
      ensures old(loop.requests.status != Processing && loop.requests.gameRunning && !loop.requests.screenInit) ==>
        old(loop.ParameterDue(player)) == Some(MoveParameter(old(loop.requests.lastProcessedPlayer), Still))
      ensures old(loop.AfterRequest().gameRunning && !loop.AfterRequest().screenInit) ==>
        old(loop.ParameterDue(player)).Some?
    {
    }

    /** What a step goes by, told of the parts of the engine. */
    twostate lemma SceneThen()
      requires old(Valid())
      ensures old(var s := engine.Now();
        && s.state == engine.state && s.left.isAuto == engine.left.isAuto && !s.right.isAuto
        && s.left.y == engine.left.position.y && s.right.y == engine.right.position.y
        && s.left.x == engine.left.position.x && s.left.puckX == engine.puck.position.x
        && s.left.puckY == engine.puck.position.y && s.left.puckSpeedX == engine.puck.velocity.x
        && 7.0 <= s.left.y <= 57.0 && 7.0 <= s.right.y <= 57.0
        && s.right.speed == 80.0 && (s.left.isAuto || s.left.speed == 80.0)
        && (loop.requests.gameRunning && !loop.requests.screenInit ==> s.state == Play))
    {
    }

    /** Where a call takes the paddles of a running game: rows count downwards. */
    lemma HeightsAfter(p: Parameter, before: Scene)
      requires Called(Some(p), before) && before.state == Play
      requires !before.right.isAuto && before.right.speed == 80.0 && (before.left.isAuto || before.left.speed == 80.0)
      requires 7.0 <= before.left.y <= 57.0 && 7.0 <= before.right.y <= 57.0
      ensures var step := if p.StartParameter? || p.direction == Still then 0.0
                          else if p.direction == Up then -2.4 else 2.4;
        && engine.right.position.y
           == (if p.MoveParameter? && p.player == Two then Clamp(before.right.y + step) else before.right.y)
        && (!before.left.isAuto ==>
             engine.left.position.y
             == if p.MoveParameter? && p.player == One then Clamp(before.left.y + step) else before.left.y)
      ensures before.left.isAuto ==>
        var y, vx, puckY, away := before.left.y, before.left.puckSpeedX, before.left.puckY,
                                  before.left.x - before.left.puckX;
        var approaches := (vx > 0.0 && away > 0.0) || (vx < 0.0 && away < 0.0) || (vx == 0.0 && away == 0.0);
        engine.left.position.y == Clamp(if !approaches || -1.65 <= puckY - y <= 1.65 then y
                                        else if puckY < y then y - 1.65 else y + 1.65)
    {
      engine.PaddlesMove(Meaning(p), FRAME_STEP, before);
    }

    /**
     The input of a round: exactly the paddle and direction of a pending paddle request, none without a
     request, and the number of players in the round that starts a game.
     */
    lemma InputOfRequest(player: Player)
      requires loop.Valid() && loop.requests.contentLength <= 2046 && !player.Other?
      ensures var r, due := loop.requests, loop.ParameterDue(player);
        && (r.MovePending() && !r.screenInit ==>
             && due == Some(MoveParameter(player, if r.requestId == AS_REQ_PADDLE_UP then Up else Down))
             && Meaning(due.value) == PaddleInput(player, r.requestId))
        && (r.StartPending() ==>
             due.Some? && Meaning(due.value) ==
               Input(false, if loop.screens.title.playerCount == 2 then "multi" else "single", "none", "none"))
        && (r.status != Processing && r.gameRunning && !r.screenInit && !r.lastProcessedPlayer.Other? ==>
             && due == Some(MoveParameter(r.lastProcessedPlayer, Still))
             && Meaning(due.value) == Input(false, "", "none", "none"))
        && (due.None? <==> (r.StopPending() || (!r.gameRunning && !r.StartPending())))
    {
    }

    /** A first start decides for good whether the left paddle is automatic: no later call changes it, or ends play. */
    lemma ModeIsKept(p: Parameter, before: Scene)
      requires Called(Some(p), before) && before.state != Quit
      ensures before.state == Play ==> engine.state == Play && engine.left.isAuto == before.left.isAuto
      ensures before.state == Splash && p.StartParameter? ==>
        engine.state == Play && engine.left.isAuto == (before.left.isAuto || p.mode == Single)
    {
    }
  }
}
