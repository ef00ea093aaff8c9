/** The main loop: one request, one screen, now and then the texts; the results of the interpreter are parameters. */
module MainLoop {
  import opened Wrappers
  import opened Bitwise
  import opened Text
  import opened AppServer
  import opened Ssd1306
  import opened Display
  import Title = TitleScreen
  import Playing = GameScreen

  datatype WifiEvent = NoEvent | Connected | Disconnected

  /** The consumer side of the exchange, and the variables a request changes. */
  class Requests {
    const exchangeBuffer: array<byte>
    var status: Status
    var requestId: nat
    var contentLength: nat
    var selectedScreen: ScreenType
    var screenInit: bool
    var gameRunning: bool
    var lastProcessedPlayer: Player
    var paramStart: Parameter
    var paramMove: Parameter
    /** Effective requests so far. */
    ghost var events: seq<Event>

    ghost predicate Valid()
      reads this
    {
      exchangeBuffer.Length == EXCHANGE_SIZE && Consistent(State())
    }

    /** The parameters for the interpreter have one of their forms. */
    ghost predicate ParametersKnown()
      reads this`lastProcessedPlayer, this`paramStart, this`paramMove
    {
      && !lastProcessedPlayer.Other? && paramStart.StartParameter?
      && paramMove.MoveParameter? && paramMove.player == lastProcessedPlayer
    }

    ghost function State(): Control
      reads this
    {
      Control(selectedScreen, screenInit, gameRunning, events)
    }

    constructor ()
      ensures Valid() && State() == INITIAL && status == WaitIn && fresh(exchangeBuffer) && ParametersKnown()
    {
      exchangeBuffer := new byte[EXCHANGE_SIZE](_ => 0);
      status, requestId, contentLength := WaitIn, 0, 0;
      selectedScreen, screenInit, gameRunning := MainScreen, true, false;
      lastProcessedPlayer := Two;
      paramStart := StartParameter(Single);
      paramMove := MoveParameter(Two, Still);
      events := [];
    }

    /** A paddle request is pending and a game runs. */
    ghost predicate MovePending()
      reads this
    {
      status == Processing && IsMove(State(), requestId)
    }

    /** A start is pending and no game runs. */
    ghost predicate StartPending()
      reads this
    {
      status == Processing && requestId == AS_REQ_GAME_START && !gameRunning
    }

    /** A stop is pending and a game runs. */
    ghost predicate StopPending()
      reads this
    {
      status == Processing && requestId == AS_REQ_GAME_STOP && gameRunning
    }

    /** The parameter that starts a game, after this round's request: chosen anew by a request that starts one. */
    ghost function StartChosen(playerCount: nat): Parameter
      reads this
    {
      if StartPending() then StartParameter(if playerCount == 2 then Multi else Single) else paramStart
    }

    /** The parameter of a game that runs: as the request asks, or none; any other request leaves the last one. */
    ghost function MoveChosen(player: Player): Parameter
      reads this
    {
      if MovePending() then MoveParameter(player, if requestId == AS_REQ_PADDLE_UP then Up else Down)
      else if status == Processing then paramMove
      else MoveParameter(lastProcessedPlayer, Still)
    }

    /** The interpreter is handed the buffer, and says whose paddle moves. */
    method MovePaddle(player: Player)
      requires exchangeBuffer.Length == EXCHANGE_SIZE && contentLength <= 2046
      requires requestId in {AS_REQ_PADDLE_UP, AS_REQ_PADDLE_DOWN}
      modifies this`lastProcessedPlayer, this`paramMove, this`events, exchangeBuffer
      ensures exchangeBuffer[..] == old(exchangeBuffer[..])[contentLength + 1 := 0]
      ensures events == old(events) + [Moved(requestId, old(ReadText(exchangeBuffer[..], contentLength)))]
      ensures lastProcessedPlayer == player
      ensures paramMove == MoveParameter(player, if requestId == AS_REQ_PADDLE_UP then Up else Down)
    {
      exchangeBuffer[contentLength + 1] := 0;
      assert exchangeBuffer[..] == old(exchangeBuffer[..])[contentLength + 1 := 0];
      events := events + [Moved(requestId, CString(exchangeBuffer[..]))];
      if requestId == AS_REQ_PADDLE_UP {
        paramMove := MoveParameter(player, Up);
        lastProcessedPlayer := player;
      } else if requestId == AS_REQ_PADDLE_DOWN {
        paramMove := MoveParameter(player, Down);
        lastProcessedPlayer := player;
      }
    }

    /** A start or a stop selects the screen; a start chooses its parameter by the number of players. */
    method StartOrStop(playerCount: nat)
      modifies this`selectedScreen, this`screenInit, this`gameRunning, this`paramStart, this`events
      ensures State() ==
        if requestId == AS_REQ_GAME_START && !old(gameRunning) then Start(old(State()))
        else if requestId == AS_REQ_GAME_STOP && old(gameRunning) then Stop(old(State()))
        else old(State())
      ensures paramStart ==
        if requestId == AS_REQ_GAME_START && !old(gameRunning)
        then StartParameter(if playerCount == 2 then Multi else Single) else old(paramStart)
    {
      if requestId == AS_REQ_GAME_START && gameRunning == false {
        if playerCount == 2 {
          paramStart := StartParameter(Multi);
        } else {
          paramStart := StartParameter(Single);
        }
        selectedScreen, screenInit, gameRunning := GameScreen, true, true;
        events := events + [Started];
      } else if requestId == AS_REQ_GAME_STOP && gameRunning == true {
        selectedScreen, screenInit, gameRunning := MainScreen, true, false;
        events := events + [Stopped];
      }
    }

    /** player is what get_player_id returns for the exchange buffer. */
    method ProcessRequest(player: Player, playerCount: nat)
      requires Valid() && contentLength <= 2046
      modifies this`status, this`selectedScreen, this`screenInit, this`gameRunning, this`lastProcessedPlayer,
        this`paramStart, this`paramMove, this`events, exchangeBuffer
      ensures Valid()
      ensures old(status) == Processing ==>
        status == Processed && State() == old(Handled(State(), requestId, ReadText(exchangeBuffer[..], contentLength)))
      ensures old(status) != Processing ==> status == old(status) && State() == old(State())
      ensures paramStart == old(StartChosen(playerCount)) && paramMove == old(MoveChosen(player))
      ensures lastProcessedPlayer == if old(MovePending()) then player else old(lastProcessedPlayer)
      ensures exchangeBuffer[..]
           == if old(MovePending()) then old(exchangeBuffer[..])[contentLength + 1 := 0] else old(exchangeBuffer[..])
    {
      if status == Processing {
        HandledIsConsistent(State(), requestId, ReadText(exchangeBuffer[..], contentLength));
        StartOrStop(playerCount);
        if (requestId == AS_REQ_PADDLE_UP || requestId == AS_REQ_PADDLE_DOWN) && gameRunning == true {
          MovePaddle(player);
        }
        status := Processed;
      } else {
        paramMove := MoveParameter(lastProcessedPlayer, Still);
      }
    }
  }

  /** What get_player_id found in a payload. */
  datatype Player = One | Two | Other(text: string)
  datatype Mode = Single | Multi
  datatype Direction = Up | Down | Still

  /** The JSON texts for the interpreter: { "start": "single" } and the like, { "player1": "up" } and the like. */
  datatype Parameter = StartParameter(mode: Mode) | MoveParameter(player: Player, direction: Direction)

  /** The two screens over one panel. */
  class Screens {
    const bus: Bus
    const title: Title.TitleScreen
    const game: Playing.GameScreen
    var loopIncrementCount: nat
    /** Which of the two was rendered last. */
    ghost var gameShown: bool

    ghost predicate Valid()
      reads this, title, title.display.dev, title.display.dev.pages, game, game.display.dev, game.display.dev.pages, bus
    {
      && title.display.bus == bus && game.display.bus == bus
      && title.display.dev != game.display.dev && title.display.dev.pages != game.display.dev.pages
      && title.Valid() && game.Valid() && loopIncrementCount > 0
      && (if gameShown then game.display.Shown() else title.display.Shown())
    }

    /** The panel memory is the buffer of this screen. */
    ghost predicate Mirrors(gameScreen: bool)
      requires title.display.dev.Shaped() && game.display.dev.Shaped()
      reads title.display.dev.pages, game.display.dev.pages, bus
    {
      if gameScreen then game.display.dev.ShownOn(bus.controller.ram) else title.display.dev.ShownOn(bus.controller.ram)
    }

    constructor (bus: Bus, font: Font, table: Title.CubeTable)
      requires bus.controller.operands == 0 && font[0x1F] == Zeros(8)
      modifies bus
      ensures Valid() && !gameShown && this.bus == bus && title.table == table && title.frames == 0
    {
      var t := new Title.TitleScreen(bus, font, table);
      var g := new Playing.GameScreen(bus, font);
      assert t.Valid() && t.display.Shown();
      g.SetDisplayDev(t.display);
      assert t.Valid() && t.display.Shown();
      this.bus := bus;
      title, game := t, g;
      loopIncrementCount := 1;
      gameShown := false;
    }

    method RenderMain()
      requires Valid()
      modifies this`gameShown, title, title.display.dev, title.display.dev.pages, bus
      ensures Valid() && !gameShown && Mirrors(false) && title.frames == old(title.frames) + 1
    {
      title.Render();
      gameShown := false;
    }

    method RenderGame(frame: string)
      requires Valid() && AcceptableFrame(frame)
      modifies this`gameShown, game, game.display.dev, game.display.dev.pages, bus
      ensures Valid() && gameShown && Mirrors(true) && game.runtimeDataSplitLast == Pieces(frame, ",")
      ensures ParseFrame(Pieces(frame, ",")).Some? ==>
        game.Shows(old(ParseFrame(game.runtimeDataSplitLast)), ParseFrame(Pieces(frame, ",")).value)
    {
      var rest := game.Render(frame);
      gameShown := true;
    }

    /** Nothing is transmitted in the iteration that starts a game. */
    method ResetGame()
      requires Valid()
      modifies game`scorePlayer1, game`scorePlayer2
      ensures Valid() && game.scorePlayer1 == 0 && game.scorePlayer2 == 0
    {
      game.Reset();
    }

    /** A connection or a disconnection changes the number of players by one, within its bounds. */
    method CountPlayers(wifi: WifiEvent)
      requires Valid()
      modifies title`playerCount
      ensures Valid() && title.playerCount == PlayersAfter(old(title.playerCount), wifi)
      ensures wifi == Connected && old(title.playerCount) < 2 ==> title.playerCount == old(title.playerCount) + 1
      ensures wifi == Disconnected && old(title.playerCount) > 0 ==> title.playerCount == old(title.playerCount) - 1
      ensures wifi == NoEvent ==> title.playerCount == old(title.playerCount)
      ensures wifi == Connected && old(title.playerCount) == 2 ==> title.playerCount == 2
      ensures wifi == Disconnected && old(title.playerCount) == 0 ==> title.playerCount == 0
    {
      if wifi == Connected {
        title.AddPlayer();
      } else if wifi == Disconnected {
        title.RemovePlayer();
      }
    }

    /** Header and players are written to their pages. */
    method PrintTexts()
      requires Valid() && !gameShown
      modifies title.display.dev, title.display.dev.pages, bus
      ensures Valid()
      ensures forall p :: 0 <= p < 8 ==>
        title.display.dev.Row(p) == WithTexts(p, title.playerCount, old(title.display.dev.Row(p)))
    {
      title.PrintHeader();
      title.PrintPlayerInfo();
    }

    /** A page of the title screen after the texts are printed. */
    ghost function WithTexts(page: nat, playerCount: nat, row: seq<byte>): seq<byte>
      requires playerCount <= 2 && |row| == 128
    {
      if page == 1 then TextRow(title.display.font, Codes(Title.HEADER), false, row)
      else if page == 7 then TextRow(title.display.font, Title.PlayerText(playerCount), false, row)
      else row
    }

    /** Every 50th round. */
    method RenderTexts(wifi: WifiEvent, selectedScreen: ScreenType)
      requires Valid() && (selectedScreen == MainScreen ==> !gameShown)
      modifies this`loopIncrementCount, title`playerCount, title.display.dev, title.display.dev.pages, bus
      ensures Valid()
      ensures loopIncrementCount == if old(loopIncrementCount) == 1 then 50 else old(loopIncrementCount) - 1
      ensures title.playerCount
           == if old(loopIncrementCount) == 1 then PlayersAfter(old(title.playerCount), wifi)
              else old(title.playerCount)
      ensures old(loopIncrementCount) == 1 && selectedScreen == MainScreen ==>
        forall p :: 0 <= p < 8 ==>
          title.display.dev.Row(p) == WithTexts(p, title.playerCount, old(title.display.dev.Row(p)))
      ensures old(loopIncrementCount) != 1 || selectedScreen != MainScreen ==>
        unchanged(title.display.dev) && unchanged(title.display.dev.pages) && unchanged(bus)
    {
      loopIncrementCount := loopIncrementCount - 1;
      if loopIncrementCount == 0 {
        loopIncrementCount := 50;
        CountPlayers(wifi);
        if selectedScreen == MainScreen {
          PrintTexts();
        }
      }
    }
  }

  function PlayersAfter(count: nat, wifi: WifiEvent): nat {
    match wifi
    case Connected => if count < 2 then count + 1 else 2
    case Disconnected => if count > 0 then count - 1 else 0
    case NoEvent => count
  }

  predicate AcceptableFrame(frame: string) { Playing.Readable(Pieces(frame, ",")) }

  class MainLoop {
    const requests: Requests
    const screens: Screens

    ghost predicate Valid()
      reads this, requests, screens, screens.title, screens.title.display.dev, screens.title.display.dev.pages,
        screens.game, screens.game.display.dev, screens.game.display.dev.pages, screens.bus
    {
      && requests.Valid() && screens.Valid()
    }

    constructor (bus: Bus, font: Font, table: Title.CubeTable)
      requires bus.controller.operands == 0 && font[0x1F] == Zeros(8)
      modifies bus
      ensures Valid() && requests.State() == INITIAL && requests.status == WaitIn && requests.ParametersKnown()
      ensures fresh(requests) && fresh(screens)
    {
      screens := new Screens(bus, font, table);
      requests := new Requests();
    }

    /** What the pending request, if any, makes of the state. */
    ghost function AfterRequest(): Control
      requires requests.exchangeBuffer.Length == EXCHANGE_SIZE && requests.contentLength <= 2046
      reads requests, requests.exchangeBuffer
    {
      if requests.status == Processing
      then Handled(requests.State(), requests.requestId,
                   ReadText(requests.exchangeBuffer[..], requests.contentLength))
      else requests.State()
    }

    /** What the interpreter is called with, if a game is shown. */
    ghost function Parameter(): Option<Parameter>
      reads this, requests
    {
      if requests.selectedScreen != GameScreen then None
      else if requests.screenInit then Some(requests.paramStart)
      else Some(requests.paramMove)
    }

    /** The same after the pending request, if any, is handled. */
    ghost function ParameterDue(player: Player): Option<Parameter>
      requires requests.exchangeBuffer.Length == EXCHANGE_SIZE && requests.contentLength <= 2046
      reads this, requests, requests.exchangeBuffer, screens.title
    {
      var c := AfterRequest();
      if c.screen != GameScreen then None
      else if c.screenInit then Some(requests.StartChosen(screens.title.playerCount))
      else Some(requests.MoveChosen(player))
    }

    /** A running game reports fields the screen can read. */
    ghost predicate Renderable(due: Control, frame: string) {
      due.screen == GameScreen && !due.screenInit ==> AcceptableFrame(frame)
    }

    method RenderScreen(frame: string)
      requires Valid() && Renderable(requests.State(), frame)
      modifies requests`screenInit, screens`gameShown, screens.bus
      modifies screens.title, screens.title.display.dev, screens.title.display.dev.pages
      modifies screens.game, screens.game.display.dev, screens.game.display.dev.pages
      ensures Valid() && requests.ParametersKnown() == old(requests.ParametersKnown())
      ensures requests.State() == old(requests.State()).(screenInit := requests.screenInit)
      ensures requests.selectedScreen == MainScreen ==>
        !screens.gameShown && screens.Mirrors(false) && requests.State() == old(requests.State())
      ensures screens.title.frames
           == old(screens.title.frames) + (if requests.selectedScreen == MainScreen then 1 else 0)
      ensures requests.selectedScreen == GameScreen ==> requests.State() == old(requests.State()).(screenInit := false)
      ensures requests.selectedScreen == GameScreen && old(requests.screenInit) ==>
        screens.gameShown == old(screens.gameShown)
      ensures requests.selectedScreen == GameScreen && !old(requests.screenInit) ==>
        && screens.gameShown && screens.Mirrors(true) && screens.game.runtimeDataSplitLast == Pieces(frame, ",")
        && (ParseFrame(Pieces(frame, ",")).Some? ==>
             screens.game.Shows(old(ParseFrame(screens.game.runtimeDataSplitLast)),
                                ParseFrame(Pieces(frame, ",")).value))
    {
      if requests.selectedScreen == MainScreen {
        screens.RenderMain();
      } else if requests.selectedScreen == GameScreen && requests.screenInit == true {
        screens.ResetGame();
        requests.screenInit := false;
      } else if requests.selectedScreen == GameScreen && requests.screenInit == false {
        screens.RenderGame(frame);
      }
    }

    method HandleRequest(player: Player)
      requires Valid() && requests.contentLength <= 2046
      modifies requests, requests.exchangeBuffer
      ensures Valid() && requests.State() == old(AfterRequest())
      ensures !player.Other? && old(requests.ParametersKnown()) ==> requests.ParametersKnown()
      ensures requests.status == if old(requests.status) == Processing then Processed else old(requests.status)
      ensures requests.paramStart == old(requests.StartChosen(screens.title.playerCount))
      ensures requests.paramMove == old(requests.MoveChosen(player))
      ensures Parameter() == old(ParameterDue(player))
    {
      requests.ProcessRequest(player, screens.title.playerCount);
    }

    method RenderRound(frame: string, wifi: WifiEvent)
      requires Valid() && Renderable(requests.State(), frame)
      modifies requests`screenInit, screens, screens.title, screens.title.display.dev, screens.title.display.dev.pages,
        screens.game, screens.game.display.dev, screens.game.display.dev.pages, screens.bus
      ensures Valid() && requests.ParametersKnown() == old(requests.ParametersKnown())
      ensures requests.State() == old(requests.State()).(screenInit := requests.screenInit)
      ensures screens.title.frames
           == old(screens.title.frames) + (if requests.selectedScreen == MainScreen then 1 else 0)
      ensures requests.selectedScreen == MainScreen ==> !screens.gameShown && screens.Mirrors(false)
      ensures requests.selectedScreen == GameScreen ==> !requests.screenInit
      ensures requests.selectedScreen == GameScreen && !old(requests.screenInit) ==>
        && screens.gameShown && screens.Mirrors(true) && screens.game.runtimeDataSplitLast == Pieces(frame, ",")
        && (ParseFrame(Pieces(frame, ",")).Some? ==>
             screens.game.Shows(old(ParseFrame(screens.game.runtimeDataSplitLast)),
                                ParseFrame(Pieces(frame, ",")).value))
    {
      RenderScreen(frame);
      screens.RenderTexts(wifi, requests.selectedScreen);
    }

    /** One round. Afterwards the panel mirrors the buffer of the screen rendered last, by Valid. */
    method Iterate(player: Player, frame: string, wifi: WifiEvent)
      requires Valid() && requests.contentLength <= 2046 && Renderable(AfterRequest(), frame)
      modifies requests, requests.exchangeBuffer,
        screens, screens.title, screens.title.display.dev, screens.title.display.dev.pages,
        screens.game, screens.game.display.dev, screens.game.display.dev.pages, screens.bus
      ensures Valid()
      ensures requests.status == if old(requests.status) == Processing then Processed else old(requests.status)
      ensures requests.selectedScreen == old(AfterRequest()).screen && requests.events == old(AfterRequest()).events
      ensures screens.title.frames
           == old(screens.title.frames) + (if requests.selectedScreen == MainScreen then 1 else 0)
      ensures requests.selectedScreen == MainScreen ==> !screens.gameShown && screens.Mirrors(false)
      ensures requests.selectedScreen == GameScreen ==> !requests.screenInit
      ensures requests.selectedScreen == GameScreen && !old(AfterRequest()).screenInit ==>
        && screens.gameShown && screens.Mirrors(true) && screens.game.runtimeDataSplitLast == Pieces(frame, ",")
        && (ParseFrame(Pieces(frame, ",")).Some? ==>
             screens.game.Shows(old(ParseFrame(screens.game.runtimeDataSplitLast)),
                                ParseFrame(Pieces(frame, ",")).value))
    {
      ghost var due := AfterRequest();
      HandleRequest(player);
      assert Renderable(due, frame);
      RenderRound(frame, wifi);
    }
  }
}
