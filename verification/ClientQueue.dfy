/**
 Connections: requests queue up, and one response at a time is generated and
 written in as many pieces as the socket takes.

 The message generator is not in the repository. Its contract here: a reset
 makes it idle and empty; generating puts one head, formatted from the status,
 the headers and the length of the body, in front of the body; it offers a
 stretch of bytes that starts at the first unsent one; and after an update it
 says whether everything was sent.
 */
module ClientQueue {
  import opened Wrappers
  import opened Bitwise
  import opened AppServer

  // ------------------------------------------------------------------- responses

  datatype ServerFile = ServerFile(contentPath: string, contentType: string, content: seq<byte>)

  function FileAt(files: seq<ServerFile>, path: string): Option<ServerFile> {
    if files == [] then None else if files[0].contentPath == path then Some(files[0]) else FileAt(files[1..], path)
  }

  /** The file at place k is the first with this path. */
  predicate First(files: seq<ServerFile>, path: string, k: int) {
    0 <= k < |files| && files[k].contentPath == path && forall j :: 0 <= j < k ==> files[j].contentPath != path
  }

  predicate Missing(files: seq<ServerFile>, path: string) {
    forall j :: 0 <= j < |files| ==> files[j].contentPath != path
  }

  lemma {:induction false} FileAtIsFirst(files: seq<ServerFile>, path: string)
    ensures FileAt(files, path).None? <==> Missing(files, path)
    ensures forall k :: First(files, path, k) ==> FileAt(files, path) == Some(files[k])
    ensures FileAt(files, path).Some? ==> exists k :: First(files, path, k)
  {
    if files == [] {
    } else if files[0].contentPath == path {
      assert First(files, path, 0);
    } else {
      var rest := files[1..];
      FileAtIsFirst(rest, path);
      forall k | First(files, path, k) ensures First(rest, path, k - 1) {
        assert forall j :: 0 <= j < k - 1 ==> rest[j] == files[j + 1];
      }
      if FileAt(rest, path).Some? {
        var k :| First(rest, path, k);
        assert forall j :: 1 <= j < k + 1 ==> files[j] == rest[j - 1];
        assert First(files, path, k + 1);
      } else {
        assert forall j :: 1 <= j < |files| ==> files[j] == rest[j - 1];
      }
    }
  }

  type Headers = seq<(string, string)>

  /** A body is kept by reference: a file never changes, the exchange buffer may. */
  datatype Body = FileBody(content: seq<byte>) | ExchangeBody(length: nat)

  function Size(b: Body): nat { match b case FileBody(c) => |c| case ExchangeBody(n) => n }

  /** What a response answers with: the file a URL names, or the result in the exchange buffer. */
  datatype Answer = FileAnswer(url: string, date: string) | ResultAnswer(length: nat, date: string)

  function CodeOf(files: seq<ServerFile>, a: Answer): nat {
    if a.FileAnswer? && FileAt(files, a.url).None? then 404 else 200
  }

  function TypeOf(files: seq<ServerFile>, a: Answer): string {
    match a
    case ResultAnswer(_, _) => "application/json"
    case FileAnswer(url, _) => if FileAt(files, url).Some? then FileAt(files, url).value.contentType else "text/html"
  }

  function HeadersOf(files: seq<ServerFile>, a: Answer): Headers {
    [("Date", a.date), ("Content-Type", TypeOf(files, a)), ("Connection", "keep-alive"), ("Server", "falcon-as")]
  }

  function BodyOf(files: seq<ServerFile>, a: Answer): Body {
    match a
    case ResultAnswer(n, _) => ExchangeBody(n)
    case FileAnswer(url, _) =>
      if FileAt(files, url).Some? then FileBody(FileAt(files, url).value.content)
      else if FileAt(files, "/404.html").Some? then FileBody(FileAt(files, "/404.html").value.content)
      else FileBody([])
  }

  /** What a connection is set up with: the files, and how the generator formats a head. */
  datatype Config = Config(files: seq<ServerFile>, format: (nat, Headers, nat) -> seq<byte>)
  {
    function Body(a: Answer): Body { BodyOf(files, a) }

    function Head(a: Answer): seq<byte> { format(CodeOf(files, a), HeadersOf(files, a), Size(Body(a))) }

    function Length(a: Answer): nat { |Head(a)| + Size(Body(a)) }

    /** These bytes begin one response. A file is fixed byte for byte, of a result only the length is fixed. */
    predicate Begins(bytes: seq<byte>, a: Answer) {
      && |bytes| <= Length(a)
      && (forall i :: 0 <= i < |bytes| && i < |Head(a)| ==> bytes[i] == Head(a)[i])
      && (Body(a).FileBody? ==>
            forall i :: |Head(a)| <= i < |bytes| ==> bytes[i] == Body(a).content[i - |Head(a)|])
    }

    lemma BeginningsBegin(p: seq<byte>, q: seq<byte>, n: nat, a: Answer)
      requires n <= |q| && Begins(p + q, a)
      ensures Begins(p + q[..n], a)
    {
      assert p + q[..n] == (p + q)[..|p| + n];
    }

    predicate Whole(bytes: seq<byte>, a: Answer) { |bytes| == Length(a) && Begins(bytes, a) }
  }

  /**
   A response, told of the files themselves: the first file with the path of the URL, with status 200 and
   its type; without such a file status 404 and the page at /404.html, or nothing; a result as JSON.
   */
  ghost predicate Responds(config: Config, bytes: seq<byte>, a: Answer) {
    match a
    case ResultAnswer(n, date) =>
      var head := config.format(200, [("Date", date), ("Content-Type", "application/json"),
                                      ("Connection", "keep-alive"), ("Server", "falcon-as")], n);
      |bytes| == |head| + n && bytes[..|head|] == head
    case FileAnswer(url, date) =>
      && (forall k :: First(config.files, url, k) ==>
            bytes == config.format(200, [("Date", date), ("Content-Type", config.files[k].contentType),
                                         ("Connection", "keep-alive"), ("Server", "falcon-as")],
                                   |config.files[k].content|) + config.files[k].content)
      && (Missing(config.files, url) ==> exists page ::
            && (forall k :: First(config.files, "/404.html", k) ==> page == config.files[k].content)
            && (Missing(config.files, "/404.html") ==> page == [])
            && bytes == config.format(404, [("Date", date), ("Content-Type", "text/html"),
                                            ("Connection", "keep-alive"), ("Server", "falcon-as")], |page|) + page)
  }

  lemma WholeOfParts(config: Config, bytes: seq<byte>, a: Answer)
    ensures config.Whole(bytes, a) <==>
      match config.Body(a)
      case FileBody(content) => bytes == config.Head(a) + content
      case ExchangeBody(n) => |bytes| == |config.Head(a)| + n && bytes[..|config.Head(a)|] == config.Head(a)
  {
    var head := config.Head(a);
    if config.Whole(bytes, a) && config.Body(a).FileBody? {
      var content := config.Body(a).content;
      assert forall i :: 0 <= i < |bytes| ==> bytes[i] == (head + content)[i];
    }
  }

  /** A whole response is exactly that. */
  lemma WholeResponds(config: Config, bytes: seq<byte>, a: Answer)
    ensures config.Whole(bytes, a) <==> Responds(config, bytes, a)
  {
    WholeOfParts(config, bytes, a);
    if a.FileAnswer? {
      FileAtIsFirst(config.files, a.url);
      FileAtIsFirst(config.files, "/404.html");
      if FileAt(config.files, a.url).Some? {
        var k :| First(config.files, a.url, k);
      } else if FileAt(config.files, "/404.html").Some? {
        var k :| First(config.files, "/404.html", k);
      }
    }
  }

  /** What begins a response can be completed to one. */
  lemma BeginsIsCompleted(config: Config, bytes: seq<byte>, a: Answer) returns (rest: seq<byte>)
    requires config.Begins(bytes, a)
    ensures Responds(config, bytes + rest, a)
  {
    var head := config.Head(a);
    var content := match config.Body(a) case FileBody(c) => c case ExchangeBody(n) => seq(n, _ => 0);
    rest := (head + content)[|bytes|..];
    assert config.Whole(bytes + rest, a);
    WholeResponds(config, bytes + rest, a);
  }

  // -------------------------------------------------------------- shared variables

  class Shared {
    var status: Status
    var id: nat
    var contentLength: nat
    const buffer: array<byte>

    predicate Valid()
      reads this
    {
      buffer.Length == EXCHANGE_SIZE && contentLength <= 2046
    }

    constructor ()
      ensures Valid() && status == WaitIn && fresh(buffer)
    {
      status, id, contentLength := WaitIn, 0, 0;
      buffer := new byte[EXCHANGE_SIZE](_ => 0);
    }

    /** Publishes a request that an entry of the table matches; any other request leaves everything as it is. */
    method ASRequestInit(request: Request)
      requires Valid()
      modifies this`status, this`id, this`contentLength, buffer
      ensures Valid()
      ensures Lookup(request).None? ==>
        && status == old(status) && id == old(id)
        && contentLength == old(contentLength) && buffer[..] == old(buffer[..])
      ensures Lookup(request).Some? ==>
        && status == Processing && id == Lookup(request).value && contentLength == |request.payload|
        && buffer[..] == request.payload + old(buffer[..])[|request.payload|..]
    {
      for i := 0 to |DEFINITIONS|
        invariant Valid() && status == old(status) && id == old(id)
        invariant contentLength == old(contentLength) && buffer[..] == old(buffer[..])
        invariant forall j :: 0 <= j < i ==> !Matches(DEFINITIONS[j], request)
      {
        if Matches(DEFINITIONS[i], request) {
          id := DEFINITIONS[i].id;
          contentLength := |request.payload|;
          Copy(request.payload);
          status := Processing;
          return;
        }
      }
    }

    method Copy(payload: seq<byte>)
      requires |payload| <= buffer.Length
      modifies buffer
      ensures buffer[..] == payload + old(buffer[..])[|payload|..]
    {
      for k := 0 to |payload|
        invariant forall j :: 0 <= j < buffer.Length ==> buffer[j] == if j < k then payload[j] else old(buffer[j])
      {
        buffer[k] := payload[k];
      }
    }

    /** The other thread may finish a published request at any moment; for a paddle move it also stores a terminator. */
    method Interfere(finishes: bool, gameRunning: bool)
      requires Valid()
      modifies this`status, buffer
      ensures Valid() && status == if finishes && old(status) == Processing then Processed else old(status)
      ensures forall i :: 0 <= i < buffer.Length && i != contentLength + 1 ==> buffer[i] == old(buffer[i])
    {
      if finishes && status == Processing {
        if id in {AS_REQ_PADDLE_UP, AS_REQ_PADDLE_DOWN} && gameRunning {
          buffer[contentLength + 1] := 0;
        }
        status := Processed;
      }
    }

    /** The status seen after a request was offered and the other thread had its turn. */
    ghost function SeenAfter(request: Request, finishes: bool): Status
      reads this
    {
      var asked := if status == WaitIn && Lookup(request).Some? then Processing else status;
      if finishes && asked == Processing then Processed else asked
    }

    /** Identifier, length and bytes are those of the request if it was published; otherwise the first two
        are unchanged. */
    twostate predicate Offered(request: Request)
      reads this, buffer
    {
      if old(status) == WaitIn && Lookup(request).Some? then
        && id == Lookup(request).value && contentLength == |request.payload| <= buffer.Length
        && buffer[..contentLength] == request.payload
      else id == old(id) && contentLength == old(contentLength)
    }

    /** A request is published only while nothing is pending; then the other thread may act. */
    method Offer(request: Request, finishes: bool, gameRunning: bool)
      requires Valid()
      modifies this, buffer
      ensures Valid() && status == old(SeenAfter(request, finishes)) && Offered(request)
    {
      if status == WaitIn {
        ASRequestInit(request);
      }
      ghost var stored := buffer[..];
      Interfere(finishes, gameRunning);
      assert contentLength <= buffer.Length ==> buffer[..contentLength] == stored[..contentLength];
    }
  }

  // -------------------------------------------------------------------- a connection

  datatype SendState = Idle | Sending
  datatype WriteResult = Written(n: nat) | WouldBlock | Failed

  /** A file answers the request that asked for it; a result may answer any request. */
  predicate Answers(r: Request, a: Answer) { a.FileAnswer? ==> r.httpMethod == Get && a.url == r.url }

  function Least(a: int, b: int): int { if a <= b then a else b }

  function Flat(chunks: seq<seq<byte>>): seq<byte> {
    if chunks == [] then [] else Flat(chunks[..|chunks| - 1]) + chunks[|chunks| - 1]
  }

  /** What has happened on a connection: everything that arrived, every byte written, every answer completed. */
  datatype History = History(arrived: seq<Request>, output: seq<byte>, answers: seq<Answer>)

  /** Only more bytes and more completed answers, and exactly these new requests. */
  ghost predicate Extends(before: History, after: History, received: seq<Request>) {
    after.arrived == before.arrived + received && before.output <= after.output && before.answers <= after.answers
  }

  /** Something is left to answer when the new requests have joined the queue. */
  predicate Waits(before: History, received: seq<Request>) {
    |before.arrived| + |received| > |before.answers|
  }

  class Client {
    const config: Config
    var requests: seq<Request>
    var sendState: SendState
    var code: nat
    var headers: Headers
    var body: Body
    var sent: nat
    /** The bytes the socket has taken. */
    var output: seq<byte>
    /** All requests that ever arrived, the answers completed, and the bytes written for each. */
    ghost var arrived: seq<Request>
    ghost var answers: seq<Answer>
    ghost var chunks: seq<seq<byte>>
    ghost var current: Answer
    ghost var partial: seq<byte>

    ghost predicate Queued()
      reads this`requests, this`arrived, this`answers
    {
      |answers| <= |arrived| && requests == arrived[|answers|..]
    }

    ghost predicate Completed()
      reads this`arrived, this`answers, this`chunks, this`output, this`partial
    {
      && |answers| <= |arrived| && |chunks| == |answers|
      && (forall i :: 0 <= i < |answers| ==> Answers(arrived[i], answers[i]))
      && (forall i :: 0 <= i < |answers| ==> config.Whole(chunks[i], answers[i]))
      && output == Flat(chunks) + partial
    }

    ghost predicate UnderWay()
      reads this`requests, this`sendState, this`code, this`headers, this`body, this`sent, this`current, this`partial
    {
      if sendState == Idle then partial == []
      else
        && requests != [] && Answers(requests[0], current)
        && code == CodeOf(config.files, current) && headers == HeadersOf(config.files, current)
        && body == BodyOf(config.files, current)
        && sent == |partial| && config.Begins(partial, current)
        && (body.ExchangeBody? ==> body.length <= EXCHANGE_SIZE)
    }

    ghost predicate Valid()
      reads this
    {
      Queued() && Completed() && UnderWay()
    }

    constructor (config: Config)
      ensures Valid() && this.config == config && requests == [] && arrived == [] && output == [] && answers == []
    {
      this.config := config;
      requests, sendState, code, headers, body, sent, output := [], Idle, 200, [], FileBody([]), 0, [];
      arrived, answers, chunks, partial := [], [], [], [];
    }

    /** Parsed requests join the end of the queue. */
    method Receive(received: seq<Request>)
      requires Valid()
      modifies this`requests, this`arrived
      ensures Valid() && arrived == old(arrived) + received && requests == old(requests) + received
    {
      requests := requests + received;
      arrived := arrived + received;
    }

    method MsgReset()
      modifies this`sendState, this`code, this`headers, this`body, this`sent, this`partial
      ensures sendState == Idle && code == 200 && headers == [] && body == FileBody([]) && sent == 0 && partial == []
    {
      sendState, code, headers, body, sent, partial := Idle, 200, [], FileBody([]), 0, [];
    }

    method GetFileMetadata(path: string) returns (file: Option<ServerFile>)
      ensures file == FileAt(config.files, path)
      ensures file.None? <==> Missing(config.files, path)
      ensures forall k :: First(config.files, path, k) ==> file == Some(config.files[k])
    {
      FileAtIsFirst(config.files, path);
      for i := 0 to |config.files|
        invariant FileAt(config.files, path) == FileAt(config.files[i..], path)
      {
        if config.files[i].contentPath == path {
          return Some(config.files[i]);
        }
      }
      file := None;
    }

    /** An idle connection starts a response: the result if there is one, otherwise a file for a GET request. */
    method Respond(shared: Shared, date: string)
      requires Valid() && shared.Valid() && requests != [] && sendState == Idle
      modifies this`sendState, this`code, this`headers, this`body, this`sent, this`partial, this`current, shared`status
      ensures Valid() && shared.Valid()
      ensures requests == old(requests)
      ensures old(shared.status) == Processed ==>
        sendState == Sending && current == ResultAnswer(shared.contentLength, date)
      ensures old(shared.status) != Processed && requests[0].httpMethod == Get ==>
        sendState == Sending && current == FileAnswer(requests[0].url, date)
      ensures old(shared.status) != Processed && requests[0].httpMethod != Get ==> sendState == Idle
      ensures shared.status == if old(shared.status) == Processed then WaitIn else old(shared.status)
    {
      MsgReset();
      if shared.status == Processed {
        SendResult(shared.contentLength, date);
        shared.status := WaitIn;
      } else if requests[0].httpMethod == Get {
        SendFile(date);
      }
    }

    method AddHeaders(date: string, contentType: string)
      modifies this`headers
      ensures headers == old(headers) + [("Date", date), ("Content-Type", contentType),
                                         ("Connection", "keep-alive"), ("Server", "falcon-as")]
    {
      headers := headers + [("Date", date)];
      headers := headers + [("Content-Type", contentType)];
      headers := headers + [("Connection", "keep-alive")];
      headers := headers + [("Server", "falcon-as")];
    }

    method SendResult(length: nat, date: string)
      requires length <= EXCHANGE_SIZE && requests != [] && code == 200 && headers == [] && sent == 0 && partial == []
      modifies this`sendState, this`headers, this`body, this`current
      ensures UnderWay() && sendState == Sending && current == ResultAnswer(length, date)
      ensures code == 200 && body == ExchangeBody(length)
      ensures headers == [("Date", date), ("Content-Type", "application/json"),
                          ("Connection", "keep-alive"), ("Server", "falcon-as")]
    {
      AddHeaders(date, "application/json");
      body := ExchangeBody(length);
      sendState := Sending;
      current := ResultAnswer(length, date);
    }

    method SendFile(date: string)
      requires requests != [] && requests[0].httpMethod == Get
      requires code == 200 && headers == [] && sent == 0 && partial == []
      modifies this`sendState, this`code, this`headers, this`body, this`current
      ensures UnderWay() && sendState == Sending && current == FileAnswer(requests[0].url, date)
      ensures forall k :: First(config.files, requests[0].url, k) ==>
        && code == 200 && body == FileBody(config.files[k].content)
        && headers == [("Date", date), ("Content-Type", config.files[k].contentType),
                       ("Connection", "keep-alive"), ("Server", "falcon-as")]
      ensures Missing(config.files, requests[0].url) ==>
        && code == 404
        && headers == [("Date", date), ("Content-Type", "text/html"),
                       ("Connection", "keep-alive"), ("Server", "falcon-as")]
        && (forall k :: First(config.files, "/404.html", k) ==> body == FileBody(config.files[k].content))
        && (Missing(config.files, "/404.html") ==> body == FileBody([]))
    {
      var file := GetFileMetadata(requests[0].url);
      current := FileAnswer(requests[0].url, date);
      if file.Some? {
        AddHeaders(date, file.value.contentType);
        body := FileBody(file.value.content);
      } else {
        var file404 := GetFileMetadata("/404.html");
        code := 404;
        AddHeaders(date, "text/html");
        body := FileBody(if file404.Some? then file404.value.content else []);
      }
      sendState := Sending;
    }

    /** What is offered to the socket: a stretch of the message as it stands in memory now. */
    method MsgGetSendMetadata(shared: Shared, size: nat) returns (offered: seq<byte>)
      requires Valid() && shared.Valid() && sendState == Sending
      ensures config.Begins(partial + offered, current)
      ensures |offered| == Least(size, config.Length(current) - |partial|)
    {
      var head := config.format(code, headers, Size(body));
      var content := match body case FileBody(c) => c case ExchangeBody(n) => shared.buffer[..n];
      var message := head + content;
      var end := if sent + size <= |message| then sent + size else |message|;
      offered := message[sent..end];
      assert |message| == config.Length(current);
      assert forall i :: 0 <= i < |offered| ==> offered[i] == message[sent + i];
    }

    method MsgUpdateSendMetadata(n: nat) returns (finished: bool)
      modifies this`sent
      ensures sent == old(sent) + n && finished == (sent == |config.format(code, headers, Size(body))| + Size(body))
    {
      sent := sent + n;
      finished := sent == |config.format(code, headers, Size(body))| + Size(body);
    }

    /** One write. The socket takes a beginning of what it is offered, or nothing; a finished response leaves
        the queue. */
    method Send(shared: Shared, size: nat, result: WriteResult) returns (failed: bool)
      requires Valid() && shared.Valid() && sendState == Sending
      modifies this
      ensures Valid() && failed == result.Failed?
      ensures arrived == old(arrived) && old(output) <= output
      ensures !result.Written? ==>
        output == old(output) && answers == old(answers) && sendState == Sending && current == old(current)
      ensures result.Written? ==>
        var room := config.Length(old(current)) - old(|partial|);
        var taken := Least(result.n, Least(size, room));
        && |output| == old(|output|) + taken
        && (if taken == room then answers == old(answers) + [old(current)] && sendState == Idle
            else answers == old(answers) && sendState == Sending && current == old(current))
    {
      failed := result.Failed?;
      if result.Written? {
        var offered := MsgGetSendMetadata(shared, size);
        var n := Least(result.n, |offered|);
        config.BeginningsBegin(partial, offered, n, current);
        var finished := Take(offered[..n]);
        if finished {
          Finish();
        }
      }
    }

    method Take(taken: seq<byte>) returns (finished: bool)
      requires Valid() && sendState == Sending && config.Begins(partial + taken, current)
      modifies this`output, this`partial, this`sent
      ensures Valid() && output == old(output) + taken && finished == config.Whole(partial, current)
    {
      output := output + taken;
      partial := partial + taken;
      finished := MsgUpdateSendMetadata(|taken|);
    }

    method Finish()
      requires Valid() && sendState == Sending && config.Whole(partial, current)
      modifies this`requests, this`answers, this`chunks, this`sendState
      modifies this`code, this`headers, this`body, this`sent, this`partial
      ensures Valid() && answers == old(answers) + [current] && sendState == Idle
    {
      answers, chunks := answers + [current], chunks + [partial];
      MsgReset();
      requests := requests[1..];
    }

    ghost function Past(): History
      reads this`arrived, this`output, this`answers
    {
      History(arrived, output, answers)
    }

    /** What an idle connection starts when it sees this status. */
    ghost predicate Started(seen: Status, length: nat, date: string)
      reads this
    {
      requests != [] &&
      if seen == Processed then sendState == Sending && current == ResultAnswer(length, date)
      else if requests[0].httpMethod == Get then sendState == Sending && current == FileAnswer(requests[0].url, date)
      else sendState == Idle
    }

    /** The head of the queue may be published, and a response starts or goes on. */
    method ProcessHead(shared: Shared, turn: Turn) returns (failed: bool)
      requires Valid() && shared.Valid() && requests != []
      modifies this, shared, shared.buffer
      ensures Valid() && shared.Valid() && Extends(old(Past()), Past(), [])
      ensures failed ==> turn.result.Failed?
      ensures shared.Offered(old(requests[0]))
      ensures var seen := old(shared.SeenAfter(requests[0], turn.finishes));
              && shared.status == (if old(sendState) == Idle && seen == Processed then WaitIn else seen)
              && (old(sendState) == Idle ==> Started(seen, shared.contentLength, turn.date))
    {
      failed := false;
      shared.Offer(requests[0], turn.finishes, turn.gameRunning);
      if sendState == Idle {
        Respond(shared, turn.date);
      } else {
        failed := Send(shared, turn.size, turn.result);
      }
    }

    /** One visit: new requests join the queue before its head is processed. */
    method Visit(shared: Shared, turn: Turn) returns (waiting: bool, failed: bool)
      requires Valid() && shared.Valid()
      modifies this, shared, shared.buffer
      ensures Valid() && shared.Valid() && Extends(old(Past()), Past(), turn.received)
      ensures waiting == Waits(old(Past()), turn.received)
      ensures failed ==> turn.result.Failed?
    {
      shared.Interfere(turn.finishesBefore, turn.gameRunning);
      Receive(turn.received);
      waiting, failed := |requests| > 0, false;
      if waiting {
        failed := ProcessHead(shared, turn);
      }
    }
  }

  /** What the environment decides during one visit. */
  datatype Turn = Turn(
    received: seq<Request>, hungUp: bool,
    finishesBefore: bool, finishes: bool, gameRunning: bool, date: string,
    size: nat, result: WriteResult)

  class ClientHandler {
    const shared: Shared
    var clients: map<int, Client>

    constructor (shared: Shared)
      ensures this.shared == shared && clients == map[]
    {
      this.shared := shared;
      clients := map[];
    }

    ghost predicate Valid()
      reads this, shared, clients.Values
    {
      && shared.Valid()
      && (forall fd :: fd in clients ==> clients[fd].Valid())
      && (forall fd, other :: fd in clients && other in clients && fd != other ==> clients[fd] != clients[other])
    }

    method AddClient(fd: int, config: Config)
      requires Valid() && fd !in clients
      modifies this
      ensures Valid() && fd in clients && fresh(clients[fd]) && clients[fd].output == [] && clients[fd].arrived == []
      ensures clients == old(clients)[fd := clients[fd]]
    {
      var client := new Client(config);
      clients := clients[fd := client];
    }

    ghost function Pasts(): (r: map<int, History>)
      reads this, clients.Values
      ensures r.Keys == clients.Keys && forall fd :: fd in clients ==> r[fd] == clients[fd].Past()
    {
      map fd | fd in clients :: clients[fd].Past()
    }

    /** Visits one client and says whether it has to go. */
    method VisitClient(readFd: int, turn: Turn) returns (waiting: bool, erase: bool)
      requires Valid() && readFd in clients
      modifies clients[readFd], shared, shared.buffer
      ensures Valid() && Extends(old(clients[readFd].Past()), clients[readFd].Past(), turn.received)
      ensures forall fd :: fd in clients && fd != readFd ==> clients[fd].Past() == old(clients[fd].Past())
      ensures waiting == Waits(old(clients[readFd].Past()), turn.received)
      ensures (turn.hungUp ==> erase) && (erase ==> turn.hungUp || turn.result.Failed?)
    {
      var client := clients[readFd];
      var failed;
      waiting, failed := client.Visit(shared, turn);
      erase := turn.hungUp || failed;
      assert forall fd :: fd in clients && fd != readFd ==> clients[fd].Valid();
    }

    /** The same, told of the histories of all clients. */
    method ProcessClient(readFd: int, turn: Turn) returns (waiting: bool, erase: bool)
      requires Valid() && readFd in clients
      modifies clients[readFd], shared, shared.buffer
      ensures Valid() && readFd in Pasts() && Pasts() == old(Pasts())[readFd := Pasts()[readFd]]
      ensures Progress(old(Pasts())[readFd], Pasts()[readFd], turn, true, erase)
      ensures waiting == Waits(old(Pasts())[readFd], turn.received)
    {
      ghost var before := Pasts();
      waiting, erase := VisitClient(readFd, turn);
      assert before[readFd] == old(clients[readFd].Past());
      OneEntry(before, Pasts(), readFd);
    }

    /** The order in which the hash map yields the clients: each of them at exactly one position. */
    ghost predicate Lists(order: seq<int>, position: map<int, nat>)
      reads this
    {
      && (forall fd :: fd in clients ==> fd in position && position[fd] < |order| && order[position[fd]] == fd)
      && (forall i :: 0 <= i < |order| ==> order[i] in clients && order[i] in position && position[order[i]] == i)
    }

    /** Visits every client once, then drops the ones that hung up or failed; the count has 8 bits. */
    method ProcessClients(order: seq<int>, ghost position: map<int, nat>, turns: map<int, Turn>)
      returns (sumMessages: nat)
      requires Valid() && Lists(order, position) && clients.Keys <= turns.Keys
      modifies this, clients.Values, shared, shared.buffer
      ensures Valid()
      ensures forall fd :: fd in clients ==> fd in old(clients) && clients[fd] == old(clients)[fd] && !turns[fd].hungUp
      ensures forall fd :: fd in old(clients) && fd !in clients ==> turns[fd].hungUp || turns[fd].result.Failed?
      ensures forall fd :: fd in old(clients) ==>
        old(clients)[fd].Valid() && Extends(old(Pasts())[fd], old(clients)[fd].Past(), turns[fd].received)
      ensures old(clients.Keys) == old(Pasts()).Keys
      ensures sumMessages == |Waiting(old(clients.Keys), old(Pasts()), turns)| % 256
    {
      var eraseFds: set<int>;
      OrderCounts(order, position, turns);
      sumMessages, eraseFds := ProcessAll(order, position, turns);
      Drop(eraseFds);
    }

    lemma OrderCounts(order: seq<int>, position: map<int, nat>, turns: map<int, Turn>)
      requires Valid() && Lists(order, position) && clients.Keys <= turns.Keys
      ensures clients.Keys == Pasts().Keys
      ensures CountWaiting(order, Pasts(), turns) == |Waiting(clients.Keys, Pasts(), turns)|
    {
      CountIsNumber(order, Pasts(), turns);
      forall fd | fd in clients ensures fd in Visited(order) {
        assert order[position[fd]] == fd;
      }
      forall i | 0 <= i < |order| ensures order[i] in clients {
      }
      assert Visited(order) == clients.Keys;
    }

    method Drop(eraseFds: set<int>)
      requires Valid()
      modifies this`clients
      ensures Valid() && clients == old(clients) - eraseFds
    {
      clients := clients - eraseFds;
    }

    method ProcessNext(order: seq<int>, ghost position: map<int, nat>, turns: map<int, Turn>, i: nat,
                       ghost before: map<int, History>, sumMessages: nat, eraseFds: set<int>)
      returns (sumMessages': nat, eraseFds': set<int>)
      requires Valid() && Lists(order, position) && i < |order|
      requires RoundState(before, Pasts(), position, turns, i, eraseFds)
      requires sumMessages == CountWaiting(order[..i], before, turns) % 256
      modifies clients.Values, shared, shared.buffer
      ensures Valid() && RoundState(before, Pasts(), position, turns, i + 1, eraseFds')
      ensures sumMessages' == CountWaiting(order[..i + 1], before, turns) % 256
    {
      var readFd := order[i];
      ghost var now := Pasts();
      var waiting, erase := ProcessClient(readFd, turns[readFd]);
      RoundNext(before, now, Pasts(), position, turns, i, eraseFds, readFd, erase);
      CountNext(order, before, turns, i, sumMessages, waiting);
      sumMessages' := if waiting then (sumMessages + 1) % 256 else sumMessages;
      eraseFds' := if erase then eraseFds + {readFd} else eraseFds;
    }

    method ProcessAll(order: seq<int>, ghost position: map<int, nat>, turns: map<int, Turn>)
      returns (sumMessages: nat, eraseFds: set<int>)
      requires Valid() && Lists(order, position) && clients.Keys <= turns.Keys
      modifies clients.Values, shared, shared.buffer
      ensures Valid() && clients == old(clients)
      ensures forall fd :: fd in clients ==> Progress(old(Pasts())[fd], Pasts()[fd], turns[fd], true, fd in eraseFds)
      ensures sumMessages == CountWaiting(order, old(Pasts()), turns) % 256
    {
      sumMessages, eraseFds := 0, {};
      ghost var before := Pasts();
      RoundStart(before, position, turns);
      for i := 0 to |order|
        invariant Valid() && clients == old(clients)
        invariant RoundState(before, Pasts(), position, turns, i, eraseFds)
        invariant sumMessages == CountWaiting(order[..i], before, turns) % 256
      {
        sumMessages, eraseFds := ProcessNext(order, position, turns, i, before, sumMessages, eraseFds);
      }
      assert order[..|order|] == order;
    }
  }

  /** Where a client stands in a round: untouched, or visited and kept or marked. */
  ghost predicate Progress(before: History, after: History, turn: Turn, visited: bool, marked: bool) {
    if visited then
      && Extends(before, after, turn.received)
      && (turn.hungUp ==> marked) && (marked ==> turn.hungUp || turn.result.Failed?)
    else before == after && !marked
  }

  /** The clients before position i are visited. */
  ghost predicate RoundState(before: map<int, History>, now: map<int, History>, position: map<int, nat>,
                             turns: map<int, Turn>, i: nat, eraseFds: set<int>) {
    && now.Keys == before.Keys && (forall fd :: fd in before ==> fd in turns && fd in position)
    && forall fd :: fd in before ==> Progress(before[fd], now[fd], turns[fd], position[fd] < i, fd in eraseFds)
  }

  lemma OneEntry(before: map<int, History>, after: map<int, History>, readFd: int)
    requires after.Keys == before.Keys && readFd in before
    requires forall fd :: fd in before && fd != readFd ==> after[fd] == before[fd]
    ensures after == before[readFd := after[readFd]]
  {
  }

  /** A count of 8 bits wraps. */
  lemma CountWraps(n: nat)
    ensures (n % 256 + 1) % 256 == (n + 1) % 256
  {
  }

  lemma RoundStart(before: map<int, History>, position: map<int, nat>, turns: map<int, Turn>)
    requires forall fd :: fd in before ==> fd in turns && fd in position
    ensures RoundState(before, before, position, turns, 0, {})
  {
  }

  lemma RoundNext(before: map<int, History>, now: map<int, History>, next: map<int, History>, position: map<int, nat>,
                  turns: map<int, Turn>, i: nat, eraseFds: set<int>, readFd: int, erase: bool)
    requires RoundState(before, now, position, turns, i, eraseFds)
    requires readFd in before && forall fd :: fd in before ==> (position[fd] == i <==> fd == readFd)
    requires readFd in next && next == now[readFd := next[readFd]]
    requires Progress(now[readFd], next[readFd], turns[readFd], true, erase)
    ensures RoundState(before, next, position, turns, i + 1, if erase then eraseFds + {readFd} else eraseFds)
  {
  }

  function CountWaiting(order: seq<int>, before: map<int, History>, turns: map<int, Turn>): nat {
    if order == [] then 0
    else
      var n := |order| - 1;
      CountWaiting(order[..n], before, turns) +
      if order[n] in before && order[n] in turns && Waits(before[order[n]], turns[order[n]].received) then 1 else 0
  }

  /** The connections with more requests than answers, once the new requests are counted. */
  function Waiting(clients: set<int>, before: map<int, History>, turns: map<int, Turn>): set<int>
    requires clients <= before.Keys && clients <= turns.Keys
  {
    set fd | fd in clients && |before[fd].arrived| + |turns[fd].received| > |before[fd].answers|
  }

  /** Visiting each connection once counts them, in whatever order. */
  lemma {:induction false} CountIsNumber(order: seq<int>, before: map<int, History>, turns: map<int, Turn>)
    requires forall i :: 0 <= i < |order| ==> order[i] in before && order[i] in turns
    requires forall i, j :: 0 <= i < j < |order| ==> order[i] != order[j]
    ensures Visited(order) <= before.Keys && Visited(order) <= turns.Keys
    ensures CountWaiting(order, before, turns) == |Waiting(Visited(order), before, turns)|
  {
    if order != [] {
      var n := |order| - 1;
      var fd, front := order[n], order[..n];
      CountIsNumber(front, before, turns);
      LastVisited(order);
      WaitingGrows(Visited(front), fd, before, turns);
    }
  }

  lemma LastVisited(order: seq<int>)
    requires order != [] && forall i, j :: 0 <= i < j < |order| ==> order[i] != order[j]
    ensures var n := |order| - 1; Visited(order) == Visited(order[..n]) + {order[n]} && order[n] !in Visited(order[..n])
  {
    var n := |order| - 1;
    forall i | 0 <= i < n ensures order[i] in Visited(order[..n]) {
      assert order[..n][i] == order[i];
    }
  }

  lemma WaitingGrows(clients: set<int>, fd: int, before: map<int, History>, turns: map<int, Turn>)
    requires fd !in clients && clients + {fd} <= before.Keys && clients + {fd} <= turns.Keys
    ensures |Waiting(clients + {fd}, before, turns)|
         == |Waiting(clients, before, turns)| + if Waits(before[fd], turns[fd].received) then 1 else 0
  {
    var rest := Waiting(clients, before, turns);
    if Waits(before[fd], turns[fd].received) {
      assert Waiting(clients + {fd}, before, turns) == rest + {fd};
    } else {
      assert Waiting(clients + {fd}, before, turns) == rest;
    }
  }

  function Visited(order: seq<int>): set<int> { set i | 0 <= i < |order| :: order[i] }

  lemma CountNext(order: seq<int>, before: map<int, History>, turns: map<int, Turn>, i: nat, sum: nat, waiting: bool)
    requires i < |order| && order[i] in before && order[i] in turns
    requires sum == CountWaiting(order[..i], before, turns) % 256
    requires waiting == Waits(before[order[i]], turns[order[i]].received)
    ensures (if waiting then (sum + 1) % 256 else sum) == CountWaiting(order[..i + 1], before, turns) % 256
  {
    assert order[..i + 1][..i] == order[..i];
    CountWraps(CountWaiting(order[..i], before, turns));
  }

  // ------------------------------------------------------- what the other side reads

  /** A reader that knows the lengths cuts the stream into one response after the other. */
  predicate Reads(config: Config, bytes: seq<byte>, answers: seq<Answer>) {
    if answers == [] then bytes == []
    else
      var n := config.Length(answers[0]);
      if |bytes| < n then config.Begins(bytes, answers[0])
      else config.Whole(bytes[..n], answers[0]) && Reads(config, bytes[n..], answers[1..])
  }

  function FlatLeft(chunks: seq<seq<byte>>): seq<byte> {
    if chunks == [] then [] else chunks[0] + FlatLeft(chunks[1..])
  }

  lemma {:induction false} FlatBothWays(chunks: seq<seq<byte>>)
    ensures Flat(chunks) == FlatLeft(chunks)
    decreases |chunks|
  {
    if |chunks| == 1 {
      assert chunks[..0] == [] && chunks[1..] == [];
    } else if chunks != [] {
      var n := |chunks| - 1;
      FlatBothWays(chunks[..n]);
      FlatBothWays(chunks[1..]);
      FlatBothWays(chunks[1..n]);
      assert chunks[..n][1..] == chunks[1..n] && chunks[1..][..n - 1] == chunks[1..n];
      calc {
        Flat(chunks);
        (chunks[0] + FlatLeft(chunks[1..n])) + chunks[n];
        chunks[0] + (Flat(chunks[1..n]) + chunks[n]);
        FlatLeft(chunks);
      }
    }
  }

  lemma {:induction false} ChunksRead(config: Config, chunks: seq<seq<byte>>, answers: seq<Answer>,
                                      partial: seq<byte>, more: seq<Answer>)
    requires |chunks| == |answers| && forall i :: 0 <= i < |answers| ==> config.Whole(chunks[i], answers[i])
    requires Reads(config, partial, more)
    ensures Reads(config, FlatLeft(chunks) + partial, answers + more)
  {
    if chunks == [] {
      assert FlatLeft(chunks) + partial == partial && answers + more == more;
    } else {
      ChunksRead(config, chunks[1..], answers[1..], partial, more);
      assert (answers + more)[1..] == answers[1..] + more;
      ChunkReads(config, chunks[0], FlatLeft(chunks[1..]) + partial, answers + more);
      Appended(chunks[0], FlatLeft(chunks[1..]), partial);
    }
  }

  lemma Appended(a: seq<byte>, b: seq<byte>, c: seq<byte>)
    ensures a + b + c == a + (b + c)
  {
  }

  lemma ChunkReads(config: Config, chunk: seq<byte>, rest: seq<byte>, answers: seq<Answer>)
    requires answers != [] && config.Whole(chunk, answers[0]) && Reads(config, rest, answers[1..])
    ensures Reads(config, chunk + rest, answers)
  {
    assert (chunk + rest)[..|chunk|] == chunk && (chunk + rest)[|chunk|..] == rest;
  }

  /** Each chunk written is a response, and what is under way the beginning of one. */
  lemma EachResponds(c: Client)
    requires c.Valid()
    ensures c.output == FlatLeft(c.chunks) + c.partial && |c.chunks| == |c.answers|
    ensures forall i :: 0 <= i < |c.answers| ==> Responds(c.config, c.chunks[i], c.answers[i])
    ensures c.sendState == Sending ==> exists rest :: Responds(c.config, c.partial + rest, c.current)
  {
    FlatBothWays(c.chunks);
    forall i | 0 <= i < |c.answers| ensures Responds(c.config, c.chunks[i], c.answers[i]) {
      WholeResponds(c.config, c.chunks[i], c.answers[i]);
    }
    if c.sendState == Sending {
      var rest := BeginsIsCompleted(c.config, c.partial, c.current);
    }
  }

  /** The bytes written read as whole responses, one for each request in the order of arrival, and the
      beginning of the next. */
  lemma WrittenInOrder(c: Client)
    requires c.Valid()
    ensures |c.answers| <= |c.arrived| && c.requests == c.arrived[|c.answers|..]
    ensures forall i :: 0 <= i < |c.answers| ==> Answers(c.arrived[i], c.answers[i])
    ensures c.sendState == Sending ==> c.requests != [] && Answers(c.requests[0], c.current)
    ensures Reads(c.config, c.output, c.answers + if c.sendState == Sending then [c.current] else [])
    ensures c.output == FlatLeft(c.chunks) + c.partial && |c.chunks| == |c.answers|
    ensures forall i :: 0 <= i < |c.answers| ==> Responds(c.config, c.chunks[i], c.answers[i])
    ensures c.sendState == Sending ==> exists rest :: Responds(c.config, c.partial + rest, c.current)
  {
    EachResponds(c);
    FlatBothWays(c.chunks);
    var more := if c.sendState == Sending then [c.current] else [];
    assert Reads(c.config, c.partial, more);
    ChunksRead(c.config, c.chunks, c.answers, c.partial, more);
  }
}
