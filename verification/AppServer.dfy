/** The requests that reach the game, and what handling one of them does. */
module AppServer {
  import opened Wrappers
  import opened Bitwise

  datatype Status = WaitIn | Processing | Processed

  const AS_REQ_GAME_START := 1
  const AS_REQ_GAME_STOP := 2
  const AS_REQ_PADDLE_UP := 3
  const AS_REQ_PADDLE_DOWN := 4

  datatype HttpMethod = Get | Post | OtherMethod
  datatype Definition = Definition(id: nat, url: string, httpMethod: HttpMethod)

  const DEFINITIONS: seq<Definition> := [
    Definition(AS_REQ_GAME_START, "/python/startgame", Get),
    Definition(AS_REQ_GAME_STOP, "/python/stopgame", Get),
    Definition(AS_REQ_PADDLE_UP, "/python/paddleup", Post),
    Definition(AS_REQ_PADDLE_DOWN, "/python/paddledown", Post)
  ]

  const EXCHANGE_SIZE := 2048

  /** The payload leaves room for the terminator the main loop writes behind it. */
  datatype RequestData = RequestData(url: string, httpMethod: HttpMethod, payload: seq<byte>)
  type Request = r: RequestData | |r.payload| <= 2046 witness RequestData("", Get, [])

  predicate Matches(d: Definition, r: RequestData) { d.url == r.url && d.httpMethod == r.httpMethod }

  /** The definition that matches a request. */
  function Lookup(r: RequestData): Option<nat> {
    if Matches(DEFINITIONS[0], r) then Some(DEFINITIONS[0].id)
    else if Matches(DEFINITIONS[1], r) then Some(DEFINITIONS[1].id)
    else if Matches(DEFINITIONS[2], r) then Some(DEFINITIONS[2].id)
    else if Matches(DEFINITIONS[3], r) then Some(DEFINITIONS[3].id)
    else None
  }

  datatype ScreenType = MainScreen | GameScreen
  datatype Event = Started | Stopped | Moved(id: nat, text: seq<byte>)

  /** What the main loop keeps between requests, and the effective requests so far. */
  datatype Control = Control(screen: ScreenType, screenInit: bool, gameRunning: bool, events: seq<Event>)

  const INITIAL := Control(MainScreen, true, false, [])

  /** First branch of the request handling. */
  function Start(c: Control): Control {
    Control(GameScreen, true, true, c.events + [Started])
  }

  function Stop(c: Control): Control {
    Control(MainScreen, true, false, c.events + [Stopped])
  }

  /** A paddle moves only while a game runs. */
  predicate IsMove(c: Control, id: nat) { id in {AS_REQ_PADDLE_UP, AS_REQ_PADDLE_DOWN} && c.gameRunning }

  /** Handling one request in one piece; for a paddle move, text is what the interpreter reads. */
  function Handled(c: Control, id: nat, text: seq<byte>): Control {
    if id == AS_REQ_GAME_START && !c.gameRunning then Start(c)
    else if id == AS_REQ_GAME_STOP && c.gameRunning then Stop(c)
    else if IsMove(c, id) then c.(events := c.events + [Moved(id, text)])
    else c
  }

  /** Starts and stops alternate, beginning with a start, and paddles move only in between. */
  predicate Alternates(events: seq<Event>, running: bool) {
    if events == [] then !running
    else
      var before, last := events[..|events| - 1], events[|events| - 1];
      match last
      case Started => running && Alternates(before, false)
      case Stopped => !running && Alternates(before, true)
      case Moved(_, _) => running && Alternates(before, true)
  }

  /** The game screen is selected exactly while a game is running. */
  predicate Consistent(c: Control) {
    (c.gameRunning <==> c.screen == GameScreen) && Alternates(c.events, c.gameRunning)
  }

  lemma HandledIsConsistent(c: Control, id: nat, text: seq<byte>)
    requires Consistent(c)
    ensures Consistent(Handled(c, id, text))
  {
    forall e: Event ensures (c.events + [e])[..|c.events|] == c.events {
    }
  }

  // -------------------------------------------------------- the C string passed on

  type Exchange = b: seq<byte> | |b| == EXCHANGE_SIZE witness seq(EXCHANGE_SIZE, _ => 0)

  function Blank(): Exchange { seq(EXCHANGE_SIZE, _ => 0) }

  /** The bytes up to the first zero. */
  function CString(buffer: seq<byte>): seq<byte> {
    if buffer == [] || buffer[0] == 0 then [] else [buffer[0]] + CString(buffer[1..])
  }

  lemma {:induction false} CStringEndsAt(buffer: seq<byte>, n: nat)
    requires n < |buffer| && buffer[n] == 0 && forall i :: 0 <= i < n ==> buffer[i] != 0
    ensures CString(buffer) == buffer[..n]
  {
    if n > 0 {
      CStringEndsAt(buffer[1..], n - 1);
      assert buffer[..n] == [buffer[0]] + buffer[1..][..n - 1];
    }
  }

  lemma {:induction false} CStringOfFront(front: seq<byte>, buffer: seq<byte>)
    requires |front| <= |buffer| && buffer[..|front|] == front && 0 in front
    ensures CString(buffer) == CString(front) && |CString(front)| < |front|
  {
    assert buffer[0] == buffer[..|front|][0];
    if front[0] != 0 {
      assert buffer[1..][..|front| - 1] == buffer[..|front|][1..];
      CStringOfFront(front[1..], buffer[1..]);
    }
  }

  /** What the interpreter reads: the terminator goes one place behind the byte that follows the payload. */
  function ReadText(buffer: Exchange, length: nat): seq<byte>
    requires length <= 2046
  {
    CString(buffer[length + 1 := 0])
  }

  /** The payload is read up to its first zero; without one, the byte behind it is read too unless it is zero. */
  lemma StaleByteIsRead(buffer: Exchange, payload: seq<byte>)
    requires |payload| <= 2046 && buffer[..|payload|] == payload
    ensures ReadText(buffer, |payload|)
         == if 0 in payload then CString(payload)
            else if buffer[|payload|] == 0 then payload
            else payload + [buffer[|payload|]]
    ensures ReadText(buffer, |payload|) == payload <==> 0 !in payload && buffer[|payload|] == 0
  {
    var terminated := buffer[|payload| + 1 := 0];
    assert terminated[..|payload|] == payload;
    if 0 in payload {
      CStringOfFront(payload, terminated);
    } else {
      CStringPast(terminated, payload);
    }
  }

  /** A text without zeros is read whole, with one more byte if that is not zero. */
  lemma CStringPast(buffer: seq<byte>, payload: seq<byte>)
    requires |payload| + 1 < |buffer| && buffer[..|payload|] == payload && 0 !in payload && buffer[|payload| + 1] == 0
    ensures CString(buffer) == if buffer[|payload|] == 0 then payload else payload + [buffer[|payload|]]
  {
    var n := |payload|;
    forall i | 0 <= i < n ensures buffer[i] != 0 {
      assert buffer[i] == buffer[..n][i] == payload[i];
    }
    if buffer[n] == 0 {
      CStringEndsAt(buffer, n);
    } else {
      CStringEndsAt(buffer, n + 1);
      assert buffer[..n + 1] == payload + [buffer[n]];
    }
  }

  // ------------------------------------------------- requests one after the other

  /** What the requests leave behind, in the main loop and in the buffer. */
  datatype Served = Served(control: Control, buffer: Exchange)

  function Stored(buffer: Exchange, payload: seq<byte>): Exchange
    requires |payload| <= 2046
  {
    payload + buffer[|payload|..]
  }

  function Serve(s: Served, r: Request): Served {
    if Lookup(r).None? then s
    else
      var id, buffer := Lookup(r).value, Stored(s.buffer, r.payload);
      if IsMove(s.control, id) then
        Served(Handled(s.control, id, ReadText(buffer, |r.payload|)), buffer[|r.payload| + 1 := 0])
      else Served(Handled(s.control, id, []), buffer)
  }

  /** The requests handled one after the other, each in one piece. */
  function Folded(requests: seq<Request>): Served {
    if requests == [] then Served(INITIAL, Blank())
    else
      var n := |requests| - 1;
      Serve(Folded(requests[..n]), requests[n])
  }

  lemma {:induction false} FoldedIsConsistent(requests: seq<Request>)
    ensures Consistent(Folded(requests).control)
  {
    if requests != [] {
      var n := |requests| - 1;
      FoldedIsConsistent(requests[..n]);
      var s, r := Folded(requests[..n]), requests[n];
      if Lookup(r).Some? {
        HandledIsConsistent(s.control, Lookup(r).value, ReadText(Stored(s.buffer, r.payload), |r.payload|));
        HandledIsConsistent(s.control, Lookup(r).value, []);
      }
    }
  }

  predicate Published(requests: seq<Request>) { forall i :: 0 <= i < |requests| ==> Lookup(requests[i]).Some? }

  /** Request n moves a paddle. */
  predicate Moves(requests: seq<Request>, n: nat)
    requires n < |requests|
  {
    Lookup(requests[n]).Some? && IsMove(Folded(requests[..n]).control, Lookup(requests[n]).value)
  }

  /** Handling request n writes to place j: with its payload, or with the terminator of a move. */
  predicate Writes(requests: seq<Request>, n: nat, j: nat)
    requires n < |requests|
  {
    j < |requests[n].payload| || (Moves(requests, n) && j == |requests[n].payload| + 1)
  }

  /** The last write to place j before request n was byte j, not zero, of the payload of request i. */
  predicate LeftBy(requests: seq<Request>, n: nat, j: nat, i: nat)
    requires i < n <= |requests|
  {
    && j < |requests[i].payload| && requests[i].payload[j] != 0
    && forall m :: i < m < n ==> !Writes(requests, m, j)
  }

  /** A byte of the buffer is not zero if and only if an earlier, longer payload left it there. */
  lemma {:induction false} WhoLeftIt(requests: seq<Request>, n: nat, j: nat)
    requires Published(requests) && n <= |requests| && j < EXCHANGE_SIZE
    ensures Folded(requests[..n]).buffer[j] != 0 <==> exists i: nat :: i < n && LeftBy(requests, n, j, i)
    ensures forall i: nat :: i < n && LeftBy(requests, n, j, i) ==>
      Folded(requests[..n]).buffer[j] == requests[i].payload[j]
  {
    if n > 0 {
      var m: nat := n - 1;
      WhoLeftIt(requests, m, j);
      LastWriter(requests, m, j);
      forall i: nat | i < n
        ensures LeftBy(requests, n, j, i) <==>
          if i == m then j < |requests[m].payload| && requests[m].payload[j] != 0
          else LeftBy(requests, m, j, i) && !Writes(requests, m, j)
      {
        LeftByNext(requests, m, j, i);
      }
      if j < |requests[m].payload| {
        assert requests[m].payload[j] != 0 ==> LeftBy(requests, n, j, m);
      } else if !Writes(requests, m, j) && Folded(requests[..m]).buffer[j] != 0 {
        var i: nat :| i < m && LeftBy(requests, m, j, i);
        assert LeftBy(requests, n, j, i);
      }
    }
  }

  lemma LeftByNext(requests: seq<Request>, m: nat, j: nat, i: nat)
    requires i <= m < |requests|
    ensures LeftBy(requests, m + 1, j, i) <==>
      if i == m then j < |requests[m].payload| && requests[m].payload[j] != 0
      else LeftBy(requests, m, j, i) && !Writes(requests, m, j)
  {
  }

  lemma LastWriter(requests: seq<Request>, m: nat, j: nat)
    requires Published(requests) && m < |requests| && j < EXCHANGE_SIZE
    ensures Folded(requests[..m + 1]).buffer[j]
         == if j < |requests[m].payload| then requests[m].payload[j]
            else if Writes(requests, m, j) then 0
            else Folded(requests[..m]).buffer[j]
  {
    assert requests[..m + 1][..m] == requests[..m];
  }

  /** What the interpreter reads for request n, if it moves a paddle. */
  function TextOf(requests: seq<Request>, n: nat): seq<byte>
    requires n < |requests|
  {
    ReadText(Stored(Folded(requests[..n]).buffer, requests[n].payload), |requests[n].payload|)
  }

  predicate IsStart(r: RequestData) { r.url == "/python/startgame" && r.httpMethod == Get }
  predicate IsStop(r: RequestData) { r.url == "/python/stopgame" && r.httpMethod == Get }
  predicate IsUp(r: RequestData) { r.url == "/python/paddleup" && r.httpMethod == Post }
  predicate IsDown(r: RequestData) { r.url == "/python/paddledown" && r.httpMethod == Post }

  /** What the four definitions match. */
  lemma LookupMeans(r: RequestData)
    ensures Lookup(r) == if IsStart(r) then Some(AS_REQ_GAME_START) else if IsStop(r) then Some(AS_REQ_GAME_STOP)
                         else if IsUp(r) then Some(AS_REQ_PADDLE_UP) else if IsDown(r) then Some(AS_REQ_PADDLE_DOWN)
                         else None
  {
  }

  /** What request n adds to what has happened: told of its URL and of whether a game ran. */
  lemma EffectOfRequest(requests: seq<Request>, n: nat)
    requires n < |requests|
    ensures var before, after, r := Folded(requests[..n]).control, Folded(requests[..n + 1]).control, requests[n];
      after.events == before.events +
        if IsStart(r) && !before.gameRunning then [Started]
        else if IsStop(r) && before.gameRunning then [Stopped]
        else if IsUp(r) && before.gameRunning then [Moved(AS_REQ_PADDLE_UP, TextOf(requests, n))]
        else if IsDown(r) && before.gameRunning then [Moved(AS_REQ_PADDLE_DOWN, TextOf(requests, n))]
        else []
    ensures var before, after, r := Folded(requests[..n]).control, Folded(requests[..n + 1]).control, requests[n];
      after.gameRunning == (IsStart(r) || (before.gameRunning && !IsStop(r)))
  {
    assert requests[..n + 1][..n] == requests[..n];
    LookupMeans(requests[n]);
  }

  /** A game runs exactly if there was a start and no stop since. */
  lemma {:induction false} RunsSinceStart(requests: seq<Request>, n: nat)
    requires n <= |requests|
    ensures Folded(requests[..n]).control.gameRunning <==>
      exists i :: 0 <= i < n && IsStart(requests[i]) && forall j :: i < j < n ==> !IsStop(requests[j])
  {
    if n > 0 {
      var m: nat := n - 1;
      RunsSinceStart(requests, m);
      EffectOfRequest(requests, m);
      assert m + 1 == n;
    }
  }

  /** A request is read as it was sent, unless it holds a zero, or an earlier, longer payload left the byte
      behind it. */
  lemma ReadAsSent(requests: seq<Request>, n: nat)
    requires Published(requests) && n < |requests|
    ensures var payload := requests[n].payload;
            && (TextOf(requests, n) == payload <==>
                 0 !in payload && !exists i: nat :: i < n && LeftBy(requests, n, |payload|, i))
            && (forall i: nat :: 0 !in payload && i < n && LeftBy(requests, n, |payload|, i) ==>
                 TextOf(requests, n) == payload + [requests[i].payload[|payload|]])
  {
    var payload, before := requests[n].payload, Folded(requests[..n]).buffer;
    var buffer := Stored(before, payload);
    assert buffer[..|payload|] == payload && buffer[|payload|] == before[|payload|];
    StaleByteIsRead(buffer, payload);
    WhoLeftIt(requests, n, |payload|);
  }

  /** Payloads without zeros that never get shorter are all read as they were sent. */
  lemma GrowingPayloadsAreSafe(requests: seq<Request>, n: nat)
    requires Published(requests) && n < |requests| && 0 !in requests[n].payload
    requires forall i :: 0 <= i < n ==> |requests[i].payload| <= |requests[n].payload|
    ensures TextOf(requests, n) == requests[n].payload
  {
    ReadAsSent(requests, n);
  }

  const BAD_RUN: seq<Request> := [
    RequestData("/python/startgame", Get, []),
    RequestData("/python/paddleup", Post, [65, 66]),
    RequestData("/python/paddleup", Post, [67])
  ]

  /** A shorter payload after a longer one is read with a byte of the longer one. */
  lemma ShorterAfterLonger()
    ensures Published(BAD_RUN) && Moves(BAD_RUN, 2) && TextOf(BAD_RUN, 2) == [67, 66]
  {
    assert BAD_RUN[..2][..1] == BAD_RUN[..1] && BAD_RUN[..1][..0] == [];
    assert Lookup(BAD_RUN[0]) == Some(AS_REQ_GAME_START);
    assert Folded(BAD_RUN[..1]).control.gameRunning;
    assert Lookup(BAD_RUN[1]) == Some(AS_REQ_PADDLE_UP) && Folded(BAD_RUN[..2]).control.gameRunning;
    assert LeftBy(BAD_RUN, 2, 1, 1);
    ReadAsSent(BAD_RUN, 2);
  }
}
