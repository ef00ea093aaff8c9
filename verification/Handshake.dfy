/**
 The HTTP thread and the main loop share four variables and no lock. Each step
 below reads or writes one shared variable; a schedule is any sequence of turns.
 Three steps touch more than one at once: TakeBody reads length and bytes, Terminate
 reads the length and stores a byte, CallPlayer reads a text. OneWriter shows that
 the other thread writes none of these meanwhile, so splitting them adds no run
 with another result. Memory is sequentially consistent.
 */
module Handshake {
  import opened Wrappers
  import opened Bitwise
  import opened AppServer

  /** Where the HTTP thread stands while it visits a client. */
  datatype HttpPc =
    | Visit
    | PutId(request: Request)
    | PutLength(request: Request)
    | PutByte(request: Request, k: nat)
    | PutStatus(request: Request)
    | TestProcessed
    | TakeBody
    | Restore

  /** Where the main loop stands. */
  datatype MainPc =
    | TestProcessing
    | TestStart
    | TestStop
    | SetScreen(running: bool)
    | SetInit(running: bool)
    | SetRunning(running: bool)
    | TestUp
    | TestDown
    | Terminate
    | CallPlayer
    | MoveUp(text: seq<byte>)
    | MoveDown(text: seq<byte>)
    | Finish
    | Render

  datatype State = State(
    status: Status, id: nat, length: nat, buffer: Exchange,
    http: HttpPc, main: MainPc, control: Control,
    published: seq<Request>,
    consumed: nat,
    answers: seq<seq<byte>>)

  /** What the environment decides: the head request of the client visited, and whether the client is idle. */
  datatype Turn = HttpTurn(request: Request, idle: bool) | MainTurn

  const START := State(WaitIn, 0, 0, Blank(), Visit, TestProcessing, INITIAL, [], 0, [])

  function HttpStep(s: State, request: Request, idle: bool): State {
    match s.http
    case Visit =>
      if s.status == WaitIn && Lookup(request).Some? then s.(http := PutId(request)) else s.(http := TestProcessed)
    case PutId(r) => s.(id := if Lookup(r).Some? then Lookup(r).value else s.id, http := PutLength(r))
    case PutLength(r) => s.(length := |r.payload|, http := PutByte(r, 0))
    case PutByte(r, k) =>
      if k < |r.payload| then s.(buffer := s.buffer[k := r.payload[k]], http := PutByte(r, k + 1))
      else s.(http := PutStatus(r))
    case PutStatus(r) => s.(status := Processing, published := s.published + [r], http := TestProcessed)
    case TestProcessed => if idle && s.status == Processed then s.(http := TakeBody) else s.(http := Visit)
    case TakeBody =>
      s.(answers := s.answers + [s.buffer[..if s.length <= EXCHANGE_SIZE then s.length else 0]], http := Restore)
    case Restore => s.(status := WaitIn, http := Visit)
  }

  function MainStep(s: State): State {
    match s.main
    case TestProcessing => s.(main := if s.status == Processing then TestStart else Render)
    case TestStart =>
      s.(main := if s.id == AS_REQ_GAME_START && !s.control.gameRunning then SetScreen(true) else TestStop)
    case TestStop =>
      s.(main := if s.id == AS_REQ_GAME_STOP && s.control.gameRunning then SetScreen(false) else TestUp)
    case SetScreen(running) =>
      s.(control := s.control.(screen := if running then GameScreen else MainScreen), main := SetInit(running))
    case SetInit(running) => s.(control := s.control.(screenInit := true), main := SetRunning(running))
    case SetRunning(running) =>
      var event := if running then Started else Stopped;
      s.(control := s.control.(gameRunning := running, events := s.control.events + [event]), main := TestUp)
    case TestUp =>
      s.(main := if s.id == AS_REQ_PADDLE_UP then (if s.control.gameRunning then Terminate else Finish) else TestDown)
    case TestDown => s.(main := if s.id == AS_REQ_PADDLE_DOWN && s.control.gameRunning then Terminate else Finish)
    case Terminate =>
      s.(buffer := if s.length + 1 < EXCHANGE_SIZE then s.buffer[s.length + 1 := 0] else s.buffer, main := CallPlayer)
    case CallPlayer => s.(main := MoveUp(CString(s.buffer)))
    case MoveUp(t) =>
      if s.id == AS_REQ_PADDLE_UP then s.(control := WithMove(s.control, AS_REQ_PADDLE_UP, t), main := Finish)
      else s.(main := MoveDown(t))
    case MoveDown(t) =>
      if s.id == AS_REQ_PADDLE_DOWN then s.(control := WithMove(s.control, AS_REQ_PADDLE_DOWN, t), main := Finish)
      else s.(main := Finish)
    case Finish => s.(status := Processed, consumed := s.consumed + 1, main := Render)
    case Render =>
      s.(control := if s.control.screen == GameScreen then s.control.(screenInit := false) else s.control,
         main := TestProcessing)
  }

  function WithMove(c: Control, id: nat, text: seq<byte>): Control { c.(events := c.events + [Moved(id, text)]) }

  function Next(s: State, turn: Turn): State {
    match turn
    case HttpTurn(r, idle) => HttpStep(s, r, idle)
    case MainTurn => MainStep(s)
  }

  /** The state after a schedule. */
  function Run(turns: seq<Turn>): State {
    if turns == [] then START else Next(Run(turns[..|turns| - 1]), turns[|turns| - 1])
  }

  // ------------------------------------------------------------------ invariant

  /** The shared variables hold this request. */
  predicate Holds(s: State, r: Request) {
    Lookup(r) == Some(s.id) && s.length == |r.payload| && s.buffer[..|r.payload|] == r.payload
  }

  function Last(s: State): Request
    requires s.published != []
  {
    s.published[|s.published| - 1]
  }

  /** The same control, whether or not the game screen has been initialized. */
  predicate Same(c: Control, d: Control) { c == d.(screenInit := c.screenInit) }

  predicate Idle(pc: MainPc) { pc.TestProcessing? || pc.Render? }

  /** Payload bytes are in place up to k; behind them the buffer is as the last request left it. */
  predicate Filled(buffer: Exchange, r: Request, k: nat, before: Exchange) {
    k <= |r.payload| && buffer == r.payload[..k] + before[k..]
  }

  /** The writer's part while nothing is published: how much of the request is in place. */
  predicate Writing(s: State, before: Exchange) {
    match s.http
    case PutId(r) => Lookup(r).Some? && s.buffer == before
    case PutLength(r) => Lookup(r) == Some(s.id) && s.buffer == before
    case PutByte(r, k) => Lookup(r) == Some(s.id) && s.length == |r.payload| && Filled(s.buffer, r, k, before)
    case PutStatus(r) => Lookup(r) == Some(s.id) && s.length == |r.payload| && s.buffer == Stored(before, r.payload)
    case _ => !s.http.TakeBody? && !s.http.Restore? && s.buffer == before
  }

  /** The reader's part: how far the main loop is with the published request, after all the ones before it. */
  predicate Reading(s: State, before: Served)
    requires s.published != []
  {
    var r, c := Last(s), before.control;
    var stored := Stored(before.buffer, r.payload);
    var started := s.id == AS_REQ_GAME_START && !c.gameRunning;
    var stopped := s.id == AS_REQ_GAME_STOP && c.gameRunning;
    var screen := if started then GameScreen else MainScreen;
    var c1 := if started then Start(c) else if stopped then Stop(c) else c;
    var text := ReadText(stored, |r.payload|);
    match s.main
    case TestProcessing => Same(s.control, c) && s.buffer == stored
    case Render => Same(s.control, c) && s.buffer == stored
    case TestStart => Same(s.control, c) && s.buffer == stored
    case TestStop => Same(s.control, c) && s.buffer == stored && !started
    case SetScreen(b) => Same(s.control, c) && s.buffer == stored && (if b then started else stopped)
    case SetInit(b) => Same(s.control, c.(screen := screen)) && s.buffer == stored && (if b then started else stopped)
    case SetRunning(b) =>
      && Same(s.control, c.(screen := screen)) && s.control.screenInit && s.buffer == stored
      && (if b then started else stopped)
    case TestUp => Same(s.control, c1) && s.buffer == stored
    case TestDown => Same(s.control, c1) && s.buffer == stored && s.id != AS_REQ_PADDLE_UP
    case Terminate => Same(s.control, c) && s.buffer == stored && IsMove(c, s.id)
    case CallPlayer => Same(s.control, c) && s.buffer == stored[|r.payload| + 1 := 0] && IsMove(c, s.id)
    case MoveUp(t) =>
      Same(s.control, c) && s.buffer == stored[|r.payload| + 1 := 0] && IsMove(c, s.id) && t == text
    case MoveDown(t) =>
      && Same(s.control, c) && s.buffer == stored[|r.payload| + 1 := 0] && IsMove(c, s.id) && t == text
      && s.id == AS_REQ_PADDLE_DOWN
    case Finish => Same(s.control, Serve(before, r).control) && s.buffer == Serve(before, r).buffer
  }

  /** Every answer is the payload of the request it answers. */
  predicate AnswersMatch(s: State) {
    |s.answers| <= |s.published| && forall i :: 0 <= i < |s.answers| ==> s.answers[i] == s.published[i].payload
  }

  ghost predicate Inv(s: State) {
    && AnswersMatch(s) && Published(s.published)
    && match s.status
       case WaitIn =>
         && |s.answers| == s.consumed == |s.published| && Idle(s.main)
         && Writing(s, Folded(s.published).buffer) && Same(s.control, Folded(s.published).control)
       case Processing =>
         && |s.answers| == s.consumed == |s.published| - 1 && (s.http.Visit? || s.http.TestProcessed?)
         && Holds(s, Last(s)) && Reading(s, Folded(s.published[..s.consumed]))
       case Processed =>
         && s.consumed == |s.published| > 0 && Idle(s.main) && Holds(s, Last(s))
         && s.buffer == Folded(s.published).buffer && Same(s.control, Folded(s.published).control)
         && (if s.http.Restore? then |s.answers| == |s.published|
             else |s.answers| == |s.published| - 1 && (s.http.Visit? || s.http.TestProcessed? || s.http.TakeBody?))
  }

  lemma StoredHolds(before: Exchange, payload: seq<byte>)
    requires |payload| <= 2046
    ensures Stored(before, payload)[..|payload|] == payload
    ensures Stored(before, payload)[|payload| + 1 := 0][..|payload|] == payload
  {
  }

  lemma HttpKeepsInv(s: State, request: Request, idle: bool)
    requires Inv(s)
    ensures Inv(HttpStep(s, request, idle))
  {
    match s.http
    case PutLength(r) => assert r.payload[..0] + s.buffer[0..] == s.buffer;
    case PutByte(r, k) => ByteKeepsInv(s, request, idle);
    case PutStatus(r) => StatusKeepsInv(s, request, idle);
    case TakeBody => AnswerKeepsInv(s, request, idle);
    case Restore => AnswerKeepsInv(s, request, idle);
    case _ =>
  }

  lemma AnswerKeepsInv(s: State, request: Request, idle: bool)
    requires Inv(s) && (s.http.TakeBody? || s.http.Restore?)
    ensures Inv(HttpStep(s, request, idle))
  {
  }

  lemma StatusKeepsInv(s: State, request: Request, idle: bool)
    requires Inv(s) && s.http.PutStatus?
    ensures Inv(HttpStep(s, request, idle))
  {
    StoredHolds(Folded(s.published).buffer, s.http.request.payload);
    assert HttpStep(s, request, idle).published[..|s.published|] == s.published;
  }

  lemma ByteKeepsInv(s: State, request: Request, idle: bool)
    requires Inv(s) && s.http.PutByte?
    ensures Inv(HttpStep(s, request, idle))
  {
    var PutByte(r, k) := s.http;
    if k < |r.payload| {
      OneMoreByte(s.buffer, r, k, Folded(s.published).buffer);
    } else {
      assert r.payload[..k] == r.payload;
    }
  }

  lemma OneMoreByte(buffer: Exchange, r: Request, k: nat, before: Exchange)
    requires k < |r.payload| && Filled(buffer, r, k, before)
    ensures Filled(buffer[k := r.payload[k]], r, k + 1, before)
  {
    assert r.payload[..k + 1] == r.payload[..k] + [r.payload[k]];
    assert buffer[k := r.payload[k]] == r.payload[..k + 1] + before[k + 1..];
  }

  lemma MainKeepsInv(s: State)
    requires Inv(s)
    ensures Inv(MainStep(s))
  {
    if s.status == Processing {
      HandlingKeepsInv(s);
    } else {
      RestingStep(s);
      StillResting(s, MainStep(s));
    }
  }

  /** With nothing to handle the main loop only goes round. */
  lemma RestingStep(s: State)
    requires Idle(s.main) && s.status != Processing
    ensures var s' := MainStep(s);
            s' == s.(main := s'.main, control := s'.control) && Idle(s'.main) && Same(s'.control, s.control)
  {
  }

  lemma StillResting(s: State, s': State)
    requires Inv(s) && s.status != Processing
    requires s' == s.(main := s'.main, control := s'.control) && Idle(s'.main) && Same(s'.control, s.control)
    ensures Inv(s')
  {
  }

  lemma HandlingKeepsInv(s: State)
    requires Inv(s) && s.status == Processing
    ensures Inv(MainStep(s))
  {
    var before := Folded(s.published[..s.consumed]);
    if s.main == Finish {
      FinishKeepsInv(s);
    } else {
      if s.main in {Terminate, CallPlayer} || s.main.MoveUp? || s.main.MoveDown? {
        MoveKeepsReading(s, before);
      } else {
        SwitchKeepsReading(s, before);
      }
      StillHandling(s, MainStep(s));
    }
  }

  lemma StillHandling(s: State, s': State)
    requires Inv(s) && s.status == Processing
    requires s' == s.(main := s'.main, control := s'.control, buffer := s'.buffer)
    requires Holds(s', Last(s)) && Reading(s', Folded(s.published[..s.consumed]))
    ensures Inv(s')
  {
  }

  /** The steps up to the test for paddle moves. */
  lemma SwitchKeepsReading(s: State, before: Served)
    requires s.published != [] && Holds(s, Last(s)) && s.status == Processing && Reading(s, before)
    requires s.main !in {Terminate, CallPlayer, Finish} && !s.main.MoveUp? && !s.main.MoveDown?
    ensures var s' := MainStep(s);
            Reading(s', before) && s' == s.(main := s'.main, control := s'.control)
  {
  }

  /** The steps of a paddle move. */
  lemma MoveKeepsReading(s: State, before: Served)
    requires s.published != [] && Holds(s, Last(s)) && s.status == Processing && Reading(s, before)
    requires s.main in {Terminate, CallPlayer} || s.main.MoveUp? || s.main.MoveDown?
    ensures var s' := MainStep(s);
            && Reading(s', before) && Holds(s', Last(s))
            && s' == s.(main := s'.main, control := s'.control, buffer := s'.buffer)
  {
    StoredHolds(before.buffer, Last(s).payload);
  }

  lemma FinishKeepsInv(s: State)
    requires Inv(s) && s.main == Finish && s.status == Processing
    ensures Inv(MainStep(s))
  {
    assert s.published[..|s.published| - 1] == s.published[..s.consumed];
  }

  /** Every schedule keeps the invariant. */
  lemma {:induction false} Safe(turns: seq<Turn>)
    ensures Inv(Run(turns))
  {
    if turns != [] {
      var n := |turns| - 1;
      Safe(turns[..n]);
      match turns[n]
      case HttpTurn(r, idle) => HttpKeepsInv(Run(turns[..n]), r, idle);
      case MainTurn => MainKeepsInv(Run(turns[..n]));
    }
  }

  // ------------------------------------------------------------- main results

  /** The main loop is between seeing PROCESSING and storing PROCESSED. */
  predicate InHandler(s: State) { !Idle(s.main) }

  /** The HTTP thread is between seeing WAIT_IN and storing PROCESSING. */
  predicate InPublication(s: State) { s.http.PutId? || s.http.PutLength? || s.http.PutByte? || s.http.PutStatus? }

  /**
   While the main loop handles a request, identifier, length and payload are those of one
   published request, the next one due. Only the byte behind the payload may be older:
   it is not zero if and only if an earlier, longer payload left it there.
   */
  lemma ReadsAreOneRequest(turns: seq<Turn>)
    ensures var s := Run(turns);
            InHandler(s) ==>
              && s.consumed < |s.published| && Holds(s, s.published[s.consumed])
              && (s.buffer[s.length] != 0 <==>
                   exists i: nat :: i < s.consumed && LeftBy(s.published, s.consumed, s.length, i))
  {
    Safe(turns);
    if InHandler(Run(turns)) {
      HandlerHolds(Run(turns));
      WhoLeftIt(Run(turns).published, Run(turns).consumed, Run(turns).length);
    }
  }

  /** What the shared variables hold while a request is handled. */
  lemma HandlerHolds(s: State)
    requires Inv(s) && InHandler(s)
    ensures s.status == Processing && s.consumed == |s.published| - 1 && Published(s.published) && Holds(s, Last(s))
    ensures s.buffer[s.length] == Folded(s.published[..s.consumed]).buffer[s.length]
    ensures s.main.MoveUp? || s.main.MoveDown? ==> s.main.text == TextOf(s.published, s.consumed)
  {
    var before, payload := Folded(s.published[..s.consumed]).buffer, Last(s).payload;
    assert Stored(before, payload)[|payload|] == before[|payload|];
  }

  /** What the interpreter is handed, in every run: the payload, or the payload and one byte of an earlier one. */
  lemma InterpreterReads(turns: seq<Turn>)
    ensures var s := Run(turns);
            s.main.MoveUp? || s.main.MoveDown? ==>
              && s.consumed < |s.published| && s.main.text == TextOf(s.published, s.consumed)
              && (s.main.text == s.published[s.consumed].payload <==>
                   && 0 !in s.published[s.consumed].payload
                   && !exists i: nat :: i < s.consumed && LeftBy(s.published, s.consumed, s.length, i))
  {
    Safe(turns);
    if Run(turns).main.MoveUp? || Run(turns).main.MoveDown? {
      HandlerHolds(Run(turns));
      ReadAsSent(Run(turns).published, Run(turns).consumed);
    }
  }

  /** A turn writes the identifier, the length or the buffer. */
  predicate WritesRequest(s: State, turn: Turn) {
    var s' := Next(s, turn);
    s'.id != s.id || s'.length != s.length || s'.buffer != s.buffer
  }

  /** Whose the three variables are: the producer's until it publishes, the consumer's until it has finished. */
  predicate Owns(s: State, turn: Turn) {
    match turn
    case HttpTurn(_, _) => s.status == WaitIn && InPublication(s) && !InHandler(s)
    case MainTurn => s.status == Processing && InHandler(s) && !InPublication(s)
  }

  lemma HttpOwns(s: State, request: Request, idle: bool)
    requires Inv(s) && WritesRequest(s, HttpTurn(request, idle))
    ensures Owns(s, HttpTurn(request, idle))
  {
  }

  lemma MainOwns(s: State)
    requires Inv(s) && WritesRequest(s, MainTurn)
    ensures Owns(s, MainTurn)
  {
  }

  /**
   Each thread writes the shared variables only while the status gives them to it; so what one of
   them reads, handling a request or taking a result, the other does not write.
   */
  lemma OneWriter(turns: seq<Turn>, turn: Turn)
    ensures WritesRequest(Run(turns), turn) ==> Owns(Run(turns), turn)
    ensures var s := Run(turns);
            && (InPublication(s) ==> s.status == WaitIn && !InHandler(s))
            && (InHandler(s) ==> s.status == Processing && !InPublication(s))
            && (s.http.TakeBody? || s.http.Restore? ==> s.status == Processed && !InHandler(s))
  {
    var s := Run(turns);
    Safe(turns);
    if WritesRequest(s, turn) {
      match turn
      case HttpTurn(r, idle) => HttpOwns(s, r, idle);
      case MainTurn => MainOwns(s);
    }
  }

  /** One full turn of the status, each thread making only its own transitions. */
  predicate Cycles(s: State, turn: Turn, s': State) {
    || s'.status == s.status
    || (turn.HttpTurn? && s.status == WaitIn && s'.status == Processing && |s'.published| == |s.published| + 1)
    || (turn.MainTurn? && s.status == Processing && s'.status == Processed && s'.consumed == s.consumed + 1)
    || (turn.HttpTurn? && s.status == Processed && s'.status == WaitIn && |s.answers| == |s.published|)
  }

  lemma HttpCycles(s: State, request: Request, idle: bool)
    requires Inv(s)
    ensures Cycles(s, HttpTurn(request, idle), HttpStep(s, request, idle))
  {
  }

  lemma MainCycles(s: State)
    requires Inv(s)
    ensures Cycles(s, MainTurn, MainStep(s))
  {
  }

  /** The status goes round in one direction. */
  lemma StatusCycles(turns: seq<Turn>, turn: Turn)
    ensures Cycles(Run(turns), turn, Run(turns + [turn]))
  {
    var s := Run(turns);
    Safe(turns);
    assert (turns + [turn])[..|turns|] == turns;
    assert Run(turns + [turn]) == Next(s, turn);
    match turn
    case HttpTurn(r, idle) => HttpCycles(s, r, idle);
    case MainTurn => MainCycles(s);
  }

  /** Every published request is consumed exactly once before the next one is published, and answered with
      its own payload. */
  lemma ExactlyOnce(turns: seq<Turn>)
    ensures var s := Run(turns);
            && s.consumed <= |s.published| <= s.consumed + 1 && |s.answers| <= s.consumed
            && (s.status == WaitIn ==> |s.answers| == s.consumed == |s.published|)
            && forall i :: 0 <= i < |s.answers| ==> s.answers[i] == s.published[i].payload
  {
    Safe(turns);
  }

  /**
   Handling the requests step by step amounts to handling them one after the other, each in
   one piece, in the main loop and in the buffer; a paddle move is handled with the text read.
   */
  lemma Linearized(turns: seq<Turn>)
    ensures var s := Run(turns);
            !InHandler(s) ==>
              && s.consumed <= |s.published| && Same(s.control, Folded(s.published[..s.consumed]).control)
              && (s.status != Processing && !InPublication(s) ==> s.buffer == Folded(s.published[..s.consumed]).buffer)
  {
    Safe(turns);
    var s := Run(turns);
    assert s.consumed == |s.published| ==> s.published[..s.consumed] == s.published;
  }

  lemma HandlerIsConsistent(s: State, before: Served)
    requires s.published != [] && Reading(s, before) && Consistent(before.control) && Lookup(Last(s)) == Some(s.id)
    requires !s.main.SetInit? && !s.main.SetRunning?
    ensures Consistent(s.control)
  {
    HandledIsConsistent(before.control, s.id, ReadText(Stored(before.buffer, Last(s).payload), |Last(s).payload|));
    HandledIsConsistent(before.control, s.id, []);
    HandledIsConsistent(before.control, AS_REQ_GAME_START, []);
    HandledIsConsistent(before.control, AS_REQ_GAME_STOP, []);
  }

  /**
   A game runs exactly when its screen is selected, and effective starts and stops have
   alternated, at every moment but between the assignments that select the screen and start or stop the game.
   */
  lemma GameFollowsScreen(turns: seq<Turn>)
    ensures var s := Run(turns);
            if s.main.SetInit? || s.main.SetRunning? then
              && s.control.gameRunning != s.main.running && (s.control.screen == GameScreen <==> s.main.running)
              && Alternates(s.control.events, s.control.gameRunning)
            else Consistent(s.control)
  {
    Safe(turns);
    var s := Run(turns);
    if s.status == Processing {
      FoldedIsConsistent(s.published[..s.consumed]);
      if !s.main.SetInit? && !s.main.SetRunning? {
        HandlerIsConsistent(s, Folded(s.published[..s.consumed]));
      }
    } else {
      FoldedIsConsistent(s.published);
    }
  }

  // --------------------------------------------------- every sequence is published

  ghost predicate Reachable(s: State) { exists turns: seq<Turn> :: Run(turns) == s }

  lemma ReachableNext(s: State, turn: Turn)
    requires Reachable(s)
    ensures Reachable(Next(s, turn))
  {
    var turns: seq<Turn> :| Run(turns) == s;
    assert (turns + [turn])[..|turns|] == turns;
    assert Run(turns + [turn]) == Next(s, turn);
  }

  /** Both threads are at the top of their loops, and nothing is pending. */
  predicate AtRest(s: State) { s.status == WaitIn && s.http == Visit && s.main == TestProcessing }

  /** The HTTP thread publishes a request. */
  lemma Publish(s: State, r: Request) returns (s': State)
    requires Reachable(s) && AtRest(s) && Lookup(r).Some?
    ensures Reachable(s') && s'.published == s.published + [r]
    ensures s'.status == Processing && s'.http == TestProcessed && s'.main == TestProcessing
  {
    var t := HttpTurn(r, false);
    s' := s;
    for i := 0 to 3
      invariant Reachable(s') && s'.published == s.published && s'.status == WaitIn && s'.main == TestProcessing
      invariant s'.http == if i == 0 then Visit else if i == 1 then PutId(r)
                           else if i == 2 then PutLength(r) else PutByte(r, 0)
    {
      ReachableNext(s', t);
      s' := Next(s', t);
    }
    for k := 0 to |r.payload|
      invariant Reachable(s') && s'.published == s.published && s'.status == WaitIn && s'.main == TestProcessing
      invariant s'.http == PutByte(r, k)
    {
      ReachableNext(s', t);
      s' := Next(s', t);
    }
    ReachableNext(s', t);
    s' := Next(s', t);
    ReachableNext(s', t);
    s' := Next(s', t);
  }

  /** How many steps the main loop takes at most until it stores PROCESSED. */
  function Rank(pc: MainPc): nat {
    match pc
    case Render => 14
    case TestProcessing => 13
    case TestStart => 12
    case TestStop => 11
    case SetScreen(_) => 10
    case SetInit(_) => 9
    case SetRunning(_) => 8
    case TestUp => 7
    case TestDown => 6
    case Terminate => 5
    case CallPlayer => 4
    case MoveUp(_) => 3
    case MoveDown(_) => 2
    case Finish => 1
  }

  /** The main loop alone handles what is pending. */
  lemma Handle(s: State) returns (s': State)
    requires Reachable(s) && s.status == Processing
    ensures Reachable(s') && s'.published == s.published && s'.http == s.http
    ensures s'.status == Processed && s'.main == Render
  {
    s' := s;
    while s'.status == Processing
      invariant Reachable(s') && s'.published == s.published && s'.http == s.http
      invariant s'.status == Processing || (s'.status == Processed && s'.main == Render)
      decreases if s'.status == Processing then Rank(s'.main) else 0
    {
      ReachableNext(s', MainTurn);
      HandlingGoesOn(s');
      s' := Next(s', MainTurn);
    }
  }

  lemma HandlingGoesOn(s: State)
    requires s.status == Processing
    ensures var s' := MainStep(s);
            && s'.published == s.published && s'.http == s.http
            && (if s.main == Finish then s'.status == Processed && s'.main == Render
                else s'.status == Processing && Rank(s'.main) < Rank(s.main))
  {
  }

  /** The HTTP thread takes the result. */
  lemma Answer(s: State, r: Request) returns (s': State)
    requires Reachable(s) && s.status == Processed && s.main == Render && s.http == TestProcessed
    ensures Reachable(s') && AtRest(s') && s'.published == s.published
  {
    ReachableNext(s, MainTurn);
    s' := Next(s, MainTurn);
    for i := 0 to 2
      invariant Reachable(s') && s'.published == s.published && s'.main == TestProcessing && s'.status == Processed
      invariant s'.http == if i == 0 then TestProcessed else if i == 1 then TakeBody else Restore
    {
      ReachableNext(s', HttpTurn(r, true));
      s' := Next(s', HttpTurn(r, true));
    }
    ReachableNext(s', HttpTurn(r, true));
    s' := Next(s', HttpTurn(r, true));
  }

  /** Every sequence of requests that entries match is what some run publishes. */
  lemma EverySequence(requests: seq<Request>)
    requires Published(requests)
    ensures exists turns: seq<Turn> :: Run(turns).published == requests && AtRest(Run(turns))
  {
    var s := AllServed(requests);
    var turns: seq<Turn> :| Run(turns) == s;
    assert Run(turns).published == requests && AtRest(Run(turns));
  }

  lemma StartIsReachable()
    ensures Reachable(START)
  {
    assert Run([]) == START;
  }

  lemma {:induction false} AllServed(requests: seq<Request>) returns (s: State)
    requires Published(requests)
    ensures Reachable(s) && AtRest(s) && s.published == requests
  {
    if requests == [] {
      StartIsReachable();
      s := START;
    } else {
      var n := |requests| - 1;
      s := AllServed(requests[..n]);
      s := OneMore(s, requests[n]);
      assert requests == requests[..n] + [requests[n]];
    }
  }

  /** One request goes all the way round. */
  lemma OneMore(s: State, r: Request) returns (s': State)
    requires Reachable(s) && AtRest(s) && Lookup(r).Some?
    ensures Reachable(s') && AtRest(s') && s'.published == s.published + [r]
  {
    s' := Publish(s, r);
    s' := Handle(s');
    s' := Answer(s', r);
  }

  /** Some run moves a paddle with a text that was never sent. */
  lemma StaleByteInSomeRun()
    ensures exists turns: seq<Turn> ::
      && Run(turns).published == BAD_RUN
      && Moved(AS_REQ_PADDLE_UP, [67, 66]) in Run(turns).control.events
  {
    ShorterAfterLonger();
    EverySequence(BAD_RUN);
    var turns: seq<Turn> :| Run(turns).published == BAD_RUN && AtRest(Run(turns));
    Safe(turns);
    assert Folded(BAD_RUN) == Serve(Folded(BAD_RUN[..2]), BAD_RUN[2]);
    var events := Folded(BAD_RUN).control.events;
    assert events[|events| - 1] == Moved(AS_REQ_PADDLE_UP, [67, 66]);
  }
}
