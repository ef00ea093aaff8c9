/** The name server for pong.game: it answers in the buffer the query came in. */
module DnsServer {
  import opened Wrappers
  import opened Bitwise
  import opened Text
  import opened DnsMessage

  const PONG: Label := [112, 111, 110, 103]
  const GAME: Label := [103, 97, 109, 101]
  const PONG_GAME: seq<byte> := [4, 112, 111, 110, 103, 4, 103, 97, 109, 101, 0]
  const QUESTION_TYPE_OFFSET := 23
  const QUERY_LENGTH := 27
  const EDNS0_QUERY_LENGTH_MINIMUM := 38
  const BUFFER_SIZE := 128

  type Datagram = seq<byte>
  type Address = a: seq<byte> | |a| == 4 witness [0, 0, 0, 0]

  // --------------------------------------------------------------- what is sent

  predicate HasPongGameQueryName(d: Datagram) { |d| >= 27 && d[12..23] == PONG_GAME }

  predicate IsStandardSingleQuestionQuery(d: Datagram)
    requires |d| >= 12
  {
    d[4] == 0 && d[5] == 1 && d[6] == 0 && d[7] == 0 && d[8] == 0 && d[9] == 0
  }

  predicate IsAInQuery(d: Datagram)
    requires |d| >= 27
  {
    d[23] == 0 && d[24] == 1 && d[25] == 0 && d[26] == 1
  }

  predicate IsPlain(d: Datagram) {
    && HasPongGameQueryName(d) && |d| == QUERY_LENGTH
    && IsStandardSingleQuestionQuery(d) && d[10] == 0 && d[11] == 0 && IsAInQuery(d)
  }

  predicate IsEdns0(d: Datagram) {
    && HasPongGameQueryName(d) && IsStandardSingleQuestionQuery(d) && d[10] == 0 && d[11] == 1 && IsAInQuery(d)
    && |d| >= EDNS0_QUERY_LENGTH_MINIMUM && d[27] == 0 && d[28] == 0 && d[29] == 0x29
  }

  const OWNER: seq<byte> := [0xC0, 0x0C, 0x00, 0x01, 0x00, 0x01]
  const TTL_AND_LENGTH: seq<byte> := [0x00, 0x00, 0x0E, 0x10, 0x00, 0x04]

  function AnswerRecord(ip: Address): (r: seq<byte>)
    ensures |r| == 16
  {
    OWNER + TTL_AND_LENGTH + ip
  }

  function Answer(d: Datagram, ip: Address): (r: Datagram)
    requires |d| >= QUERY_LENGTH
    ensures |r| == |d| + 16
  {
    d[..2] + [0x81, 0x80] + d[4..7] + [1, 0, 0, 0, if |d| == QUERY_LENGTH then 0 else 1]
    + d[12..27] + AnswerRecord(ip) + d[27..]
  }

  function NxDomain(d: Datagram): (r: Datagram)
    requires |d| >= 12
    ensures |r| == |d|
  {
    d[..2] + [0x81, 0x83] + d[4..6] + [0, 0, 0, 0] + d[10..]
  }

  /** The reply to a datagram, as a function of its bytes alone. */
  function Reply(d: Datagram, ip: Address): Option<Datagram> {
    if !(24 <= |d| < 100) then None
    else if IsPlain(d) || IsEdns0(d) then Some(Answer(d, ip))
    else if !HasPongGameQueryName(d) then Some(NxDomain(d))
    else None
  }

  /** A part of the address in the 8 bits of its place. */
  function Octet(part: string): byte {
    match Stoi(part)
    case Some(n) => n % 256
    case None => 0
  }

  function AddressOf(parts: seq<string>): Address
    requires |parts| >= 4
  {
    [Octet(parts[0]), Octet(parts[1]), Octet(parts[2]), Octet(parts[3])]
  }

  lemma OctetIsRead(n: byte)
    ensures Stoi(Itoa(n)).Some? && Octet(Itoa(n)) == n
  {
    StoiItoa(n);
  }

  lemma AddressIsRead(a: byte, b: byte, c: byte, d: byte)
    ensures AddressOf([Itoa(a), Itoa(b), Itoa(c), Itoa(d)]) == [a, b, c, d]
  {
    OctetIsRead(a);
    OctetIsRead(b);
    OctetIsRead(c);
    OctetIsRead(d);
  }

  class Server {
    const recvBuffer: array<byte>
    var ipAddressSplit: seq<string>

    ghost predicate Valid()
      reads this
    {
      recvBuffer.Length == BUFFER_SIZE && |ipAddressSplit| >= 4 && AllNumeric(ipAddressSplit)
    }

    /** The configured address, each part in the 8 bits of its place. */
    ghost function Ip(): Address
      requires Valid()
      reads this
    {
      AddressOf(ipAddressSplit)
    }

    /** The four numbers of the address in their order. */
    ghost predicate Configured(a: byte, b: byte, c: byte, d: byte)
      reads this
    {
      ipAddressSplit == [Itoa(a), Itoa(b), Itoa(c), Itoa(d)]
    }

    lemma IpIsConfigured()
      requires Valid()
      ensures forall a: byte, b: byte, c: byte, d: byte :: Configured(a, b, c, d) ==> Ip() == [a, b, c, d]
    {
      forall a: byte, b: byte, c: byte, d: byte | Configured(a, b, c, d) ensures Ip() == [a, b, c, d] {
        AddressIsRead(a, b, c, d);
      }
    }

    constructor (ipAddress: string)
      requires |Pieces(ipAddress, ".")| >= 4 && AllNumeric(Pieces(ipAddress, "."))
      ensures Valid() && ipAddressSplit == Pieces(ipAddress, ".") && fresh(recvBuffer)
    {
      recvBuffer := new byte[BUFFER_SIZE](_ => 0);
      var rest, parts := Split(ipAddress, ".", []);
      ipAddressSplit := parts;
    }

    /** A datagram overwrites the front of the buffer, cut to its size; the rest keeps old bytes. */
    method Receive(d: Datagram) returns (receivedBytes: nat)
      requires Valid()
      modifies recvBuffer
      ensures receivedBytes == if |d| <= BUFFER_SIZE then |d| else BUFFER_SIZE
      ensures recvBuffer[..receivedBytes] == d[..receivedBytes]
    {
      receivedBytes := if |d| <= BUFFER_SIZE then |d| else BUFFER_SIZE;
      forall i | 0 <= i < receivedBytes {
        recvBuffer[i] := d[i];
      }
    }

    /** Moves n bytes; the two places may overlap. */
    method Memmove(dst: nat, src: nat, n: nat)
      requires Valid() && dst + n <= BUFFER_SIZE && src + n <= BUFFER_SIZE
      modifies recvBuffer
      ensures recvBuffer[dst..dst + n] == old(recvBuffer[src..src + n])
      ensures forall i :: 0 <= i < BUFFER_SIZE && !(dst <= i < dst + n) ==> recvBuffer[i] == old(recvBuffer[i])
    {
      forall i | 0 <= i < n {
        recvBuffer[dst + i] := recvBuffer[src + i];
      }
    }

    method WriteAnswerHeader(edns0: bool)
      requires Valid()
      modifies recvBuffer
      ensures forall i :: 0 <= i < BUFFER_SIZE && i !in {2, 3, 7, 8, 9, 10, 11} ==> recvBuffer[i] == old(recvBuffer[i])
      ensures recvBuffer[2..4] == [0x81, 0x80] && recvBuffer[7..12] == [1, 0, 0, 0, if edns0 then 1 else 0]
    {
      recvBuffer[2] := 0x81;
      recvBuffer[3] := 0x80;
      recvBuffer[7] := 0x01;
      recvBuffer[8] := 0x00;
      recvBuffer[9] := 0x00;
      recvBuffer[10] := 0x00;
      recvBuffer[11] := if edns0 then 0x01 else 0x00;
    }

    /** The pointer to the question's name, type A, class IN. */
    method WriteOwner(at: nat)
      requires Valid() && at + 6 <= BUFFER_SIZE
      modifies recvBuffer
      ensures forall i :: 0 <= i < BUFFER_SIZE && !(at <= i < at + 6) ==> recvBuffer[i] == old(recvBuffer[i])
      ensures recvBuffer[at..at + 6] == OWNER
    {
      recvBuffer[at] := 0xC0;
      recvBuffer[at + 1] := 0x0C;
      recvBuffer[at + 2] := 0x00;
      recvBuffer[at + 3] := 0x01;
      recvBuffer[at + 4] := 0x00;
      recvBuffer[at + 5] := 0x01;
    }

    /** 3600 seconds, and 4 bytes of data. */
    method WriteTtl(at: nat)
      requires Valid() && at + 6 <= BUFFER_SIZE
      modifies recvBuffer
      ensures forall i :: 0 <= i < BUFFER_SIZE && !(at <= i < at + 6) ==> recvBuffer[i] == old(recvBuffer[i])
      ensures recvBuffer[at..at + 6] == TTL_AND_LENGTH
    {
      recvBuffer[at] := 0x00;
      recvBuffer[at + 1] := 0x00;
      recvBuffer[at + 2] := 0x0E;
      recvBuffer[at + 3] := 0x10;
      recvBuffer[at + 4] := 0x00;
      recvBuffer[at + 5] := 0x04;
    }

    method WriteAnswerRecord(at: nat)
      requires Valid() && at + 16 <= BUFFER_SIZE
      modifies recvBuffer
      ensures forall i :: 0 <= i < BUFFER_SIZE && !(at <= i < at + 16) ==> recvBuffer[i] == old(recvBuffer[i])
      ensures recvBuffer[at..at + 16] == AnswerRecord(Ip())
    {
      WriteOwner(at);
      ghost var b0 := recvBuffer[..];
      WriteTtl(at + 6);
      ghost var b1 := recvBuffer[..];
      WriteAddress(at + 12);
      ghost var b2 := recvBuffer[..];
      SameSlice(b2, b0, at, at + 6);
      SameSlice(b2, b1, at + 6, at + 12);
      Cut(b2, at, at + 6, at + 12);
      Cut(b2, at, at + 12, at + 16);
    }

    method WriteAddress(at: nat)
      requires Valid() && at + 4 <= BUFFER_SIZE
      modifies recvBuffer
      ensures forall i :: 0 <= i < BUFFER_SIZE && !(at <= i < at + 4) ==> recvBuffer[i] == old(recvBuffer[i])
      ensures recvBuffer[at..at + 4] == Ip()
    {
      recvBuffer[at] := Stoi(ipAddressSplit[0]).value % 256;
      recvBuffer[at + 1] := Stoi(ipAddressSplit[1]).value % 256;
      recvBuffer[at + 2] := Stoi(ipAddressSplit[2]).value % 256;
      recvBuffer[at + 3] := Stoi(ipAddressSplit[3]).value % 256;
    }

    method WriteNxDomain()
      requires Valid()
      modifies recvBuffer
      ensures forall i :: 0 <= i < BUFFER_SIZE && i !in {2, 3, 6, 7, 8, 9} ==> recvBuffer[i] == old(recvBuffer[i])
      ensures recvBuffer[2..4] == [0x81, 0x83] && recvBuffer[6..10] == [0, 0, 0, 0]
    {
      recvBuffer[2] := 0x81;
      recvBuffer[3] := 0x83;
      recvBuffer[6] := 0x00;
      recvBuffer[7] := 0x00;
      recvBuffer[8] := 0x00;
      recvBuffer[9] := 0x00;
    }

    /** The tests read the buffer even behind the bytes received; the length test in front keeps that from mattering. */
    method Classify(receivedBytes: nat) returns (hasName: bool, plain: bool, edns0: bool)
      requires Valid() && 24 <= receivedBytes < 100
      ensures
        var d := recvBuffer[..receivedBytes];
        hasName == HasPongGameQueryName(d) && plain == IsPlain(d) && edns0 == IsEdns0(d)
    {
      hasName := receivedBytes >= QUESTION_TYPE_OFFSET + 4
        && recvBuffer[12] == PONG_GAME[0] && recvBuffer[13] == PONG_GAME[1] && recvBuffer[14] == PONG_GAME[2]
        && recvBuffer[15] == PONG_GAME[3] && recvBuffer[16] == PONG_GAME[4] && recvBuffer[17] == PONG_GAME[5]
        && recvBuffer[18] == PONG_GAME[6] && recvBuffer[19] == PONG_GAME[7] && recvBuffer[20] == PONG_GAME[8]
        && recvBuffer[21] == PONG_GAME[9] && recvBuffer[22] == PONG_GAME[10];
      var isAInQuery := recvBuffer[QUESTION_TYPE_OFFSET] == 0 && recvBuffer[QUESTION_TYPE_OFFSET + 1] == 1
        && recvBuffer[QUESTION_TYPE_OFFSET + 2] == 0 && recvBuffer[QUESTION_TYPE_OFFSET + 3] == 1;
      var isStandardSingleQuestionQuery :=
        recvBuffer[4] == 0 && recvBuffer[5] == 1 && recvBuffer[6] == 0 && recvBuffer[7] == 0
        && recvBuffer[8] == 0 && recvBuffer[9] == 0;
      var isEdns0OptQuery := receivedBytes >= EDNS0_QUERY_LENGTH_MINIMUM
        && recvBuffer[QUERY_LENGTH] == 0 && recvBuffer[QUERY_LENGTH + 1] == 0 && recvBuffer[QUERY_LENGTH + 2] == 0x29;
      plain := hasName && receivedBytes == QUERY_LENGTH && isStandardSingleQuestionQuery
        && recvBuffer[10] == 0 && recvBuffer[11] == 0 && isAInQuery;
      edns0 := hasName && isStandardSingleQuestionQuery && recvBuffer[10] == 0 && recvBuffer[11] == 1
               && isAInQuery && isEdns0OptQuery;
      if receivedBytes >= 27 {
        NameBytes(recvBuffer[..receivedBytes]);
      }
    }

    /** Builds the answer around the question; the bytes behind it move out of the way first. */
    method BuildAnswer(receivedBytes: nat, edns0: bool)
      requires Valid() && QUERY_LENGTH <= receivedBytes < 100
      requires (edns0 <==> receivedBytes > QUERY_LENGTH) && recvBuffer[6] == 0
      modifies recvBuffer
      ensures recvBuffer[..receivedBytes + 16] == Answer(old(recvBuffer[..receivedBytes]), Ip())
    {
      ghost var b0 := recvBuffer[..];
      if edns0 {
        Memmove(QUERY_LENGTH + 16, QUERY_LENGTH, receivedBytes - QUERY_LENGTH);
      }
      ghost var b1 := recvBuffer[..];
      WriteAnswerHeader(edns0);
      ghost var b2 := recvBuffer[..];
      WriteAnswerRecord(QUERY_LENGTH);
      AnswerAssembled(receivedBytes, Ip(), edns0, b0, b1, b2, recvBuffer[..]);
    }

    method Serve(received: Option<Datagram>) returns (reply: Option<Datagram>)
      requires Valid()
      modifies recvBuffer
      ensures reply == match received case None => None case Some(d) => Reply(d, Ip())
      ensures forall a: byte, b: byte, c: byte, d: byte :: Configured(a, b, c, d) ==> Ip() == [a, b, c, d]
    {
      IpIsConfigured();
      reply := None;
      if received.None? { return; }
      var d := received.value;
      var receivedBytes := Receive(d);
      if receivedBytes >= 24 && receivedBytes < 100 {
        assert d[..receivedBytes] == d;
        var hasName, plain, edns0 := Classify(receivedBytes);
        if plain || edns0 {
          var responseLength := receivedBytes + 16;
          BuildAnswer(receivedBytes, edns0);
          reply := Some(recvBuffer[..responseLength]);
        } else if !hasName {
          ghost var b0 := recvBuffer[..];
          WriteNxDomain();
          NxDomainAssembled(receivedBytes, b0, recvBuffer[..]);
          reply := Some(recvBuffer[..receivedBytes]);
        }
      }
    }

    /** Any run: each reply is a function of its own datagram. */
    method ServerLoop(received: seq<Option<Datagram>>) returns (replies: seq<Option<Datagram>>)
      requires Valid()
      modifies recvBuffer
      ensures |replies| == |received|
      ensures forall i :: 0 <= i < |received| ==>
        replies[i] == match received[i] case None => None case Some(d) => Reply(d, Ip())
      ensures forall a: byte, b: byte, c: byte, d: byte :: Configured(a, b, c, d) ==> Ip() == [a, b, c, d]
    {
      IpIsConfigured();
      replies := [];
      for i := 0 to |received|
        invariant |replies| == i
        invariant forall k :: 0 <= k < i ==>
          replies[k] == match received[k] case None => None case Some(d) => Reply(d, Ip())
      {
        var reply := Serve(received[i]);
        replies := replies + [reply];
      }
    }
  }

  lemma NameBytes(d: Datagram)
    requires |d| >= 27
    ensures d[12..23] == PONG_GAME <==> (d[12] == 4 && d[13] == 112 && d[14] == 111 && d[15] == 110 && d[16] == 103
      && d[17] == 4 && d[18] == 103 && d[19] == 97 && d[20] == 109 && d[21] == 101 && d[22] == 0)
  {
    var n := d[12..23];
    assert n[0] == d[12] && n[1] == d[13] && n[2] == d[14] && n[3] == d[15] && n[4] == d[16] && n[5] == d[17];
    assert n[6] == d[18] && n[7] == d[19] && n[8] == d[20] && n[9] == d[21] && n[10] == d[22];
  }

  /** The buffer received, with the tail moved, with the header written, with the answer written. */
  lemma AnswerAssembled(n: nat, ip: Address, edns0: bool, b0: seq<byte>, b1: seq<byte>, b2: seq<byte>, b3: seq<byte>)
    requires |b0| == |b1| == |b2| == |b3| == BUFFER_SIZE && QUERY_LENGTH <= n < 100 && (edns0 <==> n > QUERY_LENGTH)
    requires forall i :: 0 <= i < BUFFER_SIZE && !(43 <= i < n + 16) ==> b1[i] == b0[i]
    requires b1[43..n + 16] == b0[27..n]
    requires forall i :: 0 <= i < BUFFER_SIZE && i !in {2, 3, 7, 8, 9, 10, 11} ==> b2[i] == b1[i]
    requires b2[2..4] == [0x81, 0x80] && b2[7..12] == [1, 0, 0, 0, if edns0 then 1 else 0]
    requires forall i :: 0 <= i < BUFFER_SIZE && !(27 <= i < 43) ==> b3[i] == b2[i]
    requires b3[27..43] == AnswerRecord(ip)
    ensures b3[..n + 16] == Answer(b0[..n], ip)
  {
    var r := b3[..n + 16];
    SameSlice(b3, b0, 0, 2);
    SameSlice(b3, b2, 2, 4);
    SameSlice(b3, b0, 4, 7);
    SameSlice(b3, b2, 7, 12);
    SameSlice(b3, b0, 12, 27);
    SameSlice(b3, b1, 43, n + 16);
    Cut(b3, 0, 2, 4);
    Cut(b3, 0, 4, 7);
    Cut(b3, 0, 7, 12);
    Cut(b3, 0, 12, 27);
    Cut(b3, 0, 27, 43);
    Cut(b3, 0, 43, n + 16);
    AnswerOfSlices(b0, n, ip);
  }

  /** The answer in terms of the buffer the query came in. */
  lemma AnswerOfSlices(b0: seq<byte>, n: nat, ip: Address)
    requires QUERY_LENGTH <= n <= |b0|
    ensures Answer(b0[..n], ip)
         == b0[0..2] + [0x81, 0x80] + b0[4..7] + [1, 0, 0, 0, if n == QUERY_LENGTH then 0 else 1] + b0[12..27]
            + AnswerRecord(ip) + b0[27..n]
  {
    var d := b0[..n];
    assert d[..2] == b0[0..2] && d[4..7] == b0[4..7] && d[12..27] == b0[12..27] && d[27..] == b0[27..n];
  }

  /** The stores leave the name error in the buffer. */
  lemma NxDomainAssembled(n: nat, b0: seq<byte>, b1: seq<byte>)
    requires 12 <= n <= BUFFER_SIZE && |b0| == |b1| == BUFFER_SIZE
    requires forall i :: 0 <= i < BUFFER_SIZE && i !in {2, 3, 6, 7, 8, 9} ==> b1[i] == b0[i]
    requires b1[2..4] == [0x81, 0x83] && b1[6..10] == [0, 0, 0, 0]
    ensures b1[..n] == NxDomain(b0[..n])
  {
    SameSlice(b1, b0, 0, 2);
    SameSlice(b1, b0, 4, 6);
    SameSlice(b1, b0, 10, n);
    Cut(b1, 0, 2, 4);
    Cut(b1, 0, 4, 6);
    Cut(b1, 0, 6, 10);
    Cut(b1, 0, 10, n);
    assert b0[..n][10..] == b0[10..n] && b0[..n][..2] == b0[0..2] && b0[..n][4..6] == b0[4..6];
  }

  lemma Cut(s: seq<byte>, from0: nat, middle: nat, end: nat)
    requires from0 <= middle <= end <= |s|
    ensures s[from0..end] == s[from0..middle] + s[middle..end]
  {
  }

  lemma SameSlice(a: seq<byte>, b: seq<byte>, from: nat, to: nat)
    requires from <= to <= |a| && to <= |b| && forall i :: from <= i < to ==> a[i] == b[i]
    ensures a[from..to] == b[from..to]
  {
  }
}
