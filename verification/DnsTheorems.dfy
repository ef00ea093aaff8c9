/** What a reader of RFC 1035 finds in the replies. */
module DnsTheorems {
  import opened Wrappers
  import opened Bitwise
  import opened Text
  import opened DnsMessage
  import opened DnsServer

  const PONG_QUESTION := Question([PONG, GAME], TYPE_A, CLASS_IN)

  /** The bytes of the name read as the two labels, and only they do. */
  lemma NameReads(m: seq<byte>)
    ensures ParseName(m, 12, 12) == Some(Parsed([PONG, GAME], 23)) <==> |m| >= 23 && m[12..23] == PONG_GAME
  {
    if |m| >= 23 && m[12..23] == PONG_GAME {
      NameBytesRead(m);
    } else if ParseName(m, 12, 12) == Some(Parsed([PONG, GAME], 23)) {
      NameReadsBytes(m);
    }
  }

  lemma NameBytesRead(m: seq<byte>)
    requires |m| >= 23 && m[12..23] == PONG_GAME
    ensures ParseName(m, 12, 12) == Some(Parsed([PONG, GAME], 23))
  {
    var n := m[12..23];
    assert forall k :: 0 <= k < 11 ==> m[12 + k] == n[k];
    assert m[12] == 4 && m[17] == 4 && m[22] == 0;
    assert m[13] == n[1] && m[14] == n[2] && m[15] == n[3] && m[16] == n[4];
    assert m[18] == n[6] && m[19] == n[7] && m[20] == n[8] && m[21] == n[9];
    assert m[13..17] == PONG && m[18..22] == GAME;
    assert ParseName(m, 12, 22) == Some(Parsed([], 23));
    assert [GAME] + [] == [GAME] && [PONG] + [GAME] == [PONG, GAME];
    assert ParseName(m, 12, 17) == Some(Parsed([GAME], 23));
  }

  lemma NameEnds(m: seq<byte>, start: nat, at: nat)
    ensures var r := ParseName(m, start, at); r.Some? ==> at < r.value.next <= |m|
    decreases start, |m| - at
  {
  }

  /** Only these eleven bytes, uncompressed, read as the name ending at 23. */
  lemma NameReadsBytes(m: seq<byte>)
    requires ParseName(m, 12, 12) == Some(Parsed([PONG, GAME], 23))
    ensures |m| >= 23 && m[12..23] == PONG_GAME
  {
    NameEnds(m, 12, 12);
    FirstLabel(m, 12, [PONG, GAME], 23);
    FirstLabel(m, 17, [GAME], 23);
    assert ParseName(m, 12, 22) == Some(Parsed([], 23));
    assert m[22] == 0;
    LabelsJoin(m);
  }

  lemma LabelsJoin(m: seq<byte>)
    requires |m| >= 23
    requires m[12] == 4 && m[13..17] == PONG && m[17] == 4 && m[18..22] == GAME && m[22] == 0
    ensures m[12..23] == PONG_GAME
  {
    assert m[12..23] == [m[12]] + m[13..17] + [m[17]] + m[18..22] + [m[22]];
  }

  /** A name that reads on past a pointer's two bytes begins with its first label. */
  lemma FirstLabel(m: seq<byte>, at: nat, labels: seq<Label>, next: nat)
    requires labels != [] && next > at + 2 && ParseName(m, 12, at) == Some(Parsed(labels, next))
    ensures at < |m| && m[at] == |labels[0]| && at + 1 + m[at] <= |m| && m[at + 1..at + 1 + m[at]] == labels[0]
    ensures ParseName(m, 12, at + 1 + m[at]) == Some(Parsed(labels[1..], next))
  {
    var rest := ParseName(m, 12, at + 1 + m[at]);
    assert rest.Some? ==> ([m[at + 1..at + 1 + m[at]]] + rest.value.value)[1..] == rest.value.value;
  }

  lemma OneQuestion(m: seq<byte>)
    requires |m| >= 27 && m[12..23] == PONG_GAME
    ensures ParseQuestions(m, 12, 1) == Some(Parsed([Question([PONG, GAME], U16(m, 23), U16(m, 25))], 27))
  {
    NameReads(m);
    QuestionAlone(m, 12);
  }

  lemma QuestionAlone(m: seq<byte>, at: nat)
    ensures ParseQuestions(m, at, 1)
         == match ParseQuestion(m, at) case None => None case Some(p) => Some(Parsed([p.value], p.next))
  {
    match ParseQuestion(m, at)
    case None =>
    case Some(p) =>
      assert ParseQuestions(m, p.next, 0) == Some(Parsed([], p.next));
      assert [p.value] + [] == [p.value];
  }

  lemma OneRecord(m: seq<byte>, at: nat)
    ensures ParseRecords(m, at, 1)
         == match ParseRecord(m, at) case None => None case Some(p) => Some(Parsed([p.value], p.next))
  {
    match ParseRecord(m, at)
    case None =>
    case Some(p) =>
      assert ParseRecords(m, p.next, 0) == Some(Parsed([], p.next));
      assert [p.value] + [] == [p.value];
  }

  lemma AnswerFields(m: seq<byte>, ip: Address)
    requires |m| >= 43 && m[27..43] == AnswerRecord(ip)
    ensures m[27] == 0xC0 && U16(m, 27) == 0xC00C && U16(m, 29) == TYPE_A && U16(m, 31) == CLASS_IN
    ensures U32(m, 33) == 3600 && U16(m, 37) == 4 && m[39..43] == ip
  {
    var a := m[27..43];
    assert forall k :: 0 <= k < 16 ==> m[27 + k] == a[k];
    assert m[27] == a[0] && m[28] == a[1] && m[29] == a[2] && m[30] == a[3] && m[31] == a[4] && m[32] == a[5];
    assert m[33] == a[6] && m[34] == a[7] && m[35] == a[8] && m[36] == a[9] && m[37] == a[10] && m[38] == a[11];
    assert m[39..43] == a[12..16];
    assert a == OWNER + TTL_AND_LENGTH + ip;
    assert a[12..16] == ip;
  }

  /** The answer's compressed name resolves to the name of the question. */
  lemma AnswerReads(m: seq<byte>, ip: Address)
    requires |m| >= 43 && m[12..23] == PONG_GAME && m[27..43] == AnswerRecord(ip)
    ensures ParseRecords(m, 27, 1) == Some(Parsed([Record([PONG, GAME], TYPE_A, CLASS_IN, 3600, ip)], 43))
  {
    AnswerFields(m, ip);
    NameReads(m);
    assert ParseName(m, 27, 27) == Some(Parsed([PONG, GAME], 29));
    OneRecord(m, 27);
  }

  lemma AnswerParts(d: Datagram, ip: Address)
    requires |d| >= QUERY_LENGTH
    ensures var r := Answer(d, ip);
            && r[..2] == d[..2] && r[2] == 0x81 && r[3] == 0x80 && r[4..7] == d[4..7]
            && r[7] == 1 && r[8] == 0 && r[9] == 0 && r[10] == 0 && r[11] == (if |d| == QUERY_LENGTH then 0 else 1)
            && r[12..27] == d[12..27] && r[27..43] == AnswerRecord(ip) && r[43..] == d[27..]
  {
    var flags, counts: seq<byte> := [0x81, 0x80], [1, 0, 0, 0, if |d| == QUERY_LENGTH then 0 else 1];
    var r := Answer(d, ip);
    assert r == d[..2] + flags + d[4..7] + counts + d[12..27] + AnswerRecord(ip) + d[27..];
    assert r[2..4] == flags && r[7..12] == counts;
    assert r[2] == flags[0] && r[3] == flags[1];
    assert r[7] == counts[0] && r[8] == counts[1] && r[9] == counts[2] && r[10] == counts[3] && r[11] == counts[4];
  }

  predicate Accepted(d: Datagram) { IsPlain(d) || IsEdns0(d) }

  /** The header of a reply: a response without error to the same query, with one answer. */
  predicate AnswersHeader(q: Header, r: Header) {
    && r.id == q.id && r.response && r.rcode == NOERROR && !r.truncated
    && r.qdcount == 1 && r.ancount == 1 && r.nscount == 0 && r.arcount == q.arcount
  }

  /** For every accepted query, the reply fits the buffer and reads as the answer to it; what followed the
      question follows the answer. */
  lemma AnswerTheorem(d: Datagram, ip: Address)
    requires Accepted(d) && |d| < 100
    ensures Reply(d, ip) == Some(Answer(d, ip)) && |Answer(d, ip)| <= BUFFER_SIZE
    ensures var r := Answer(d, ip);
            && AnswersHeader(ParseHeader(d), ParseHeader(r))
            && ParseFront(r) == Some(Parsed(Message(ParseHeader(r), [PONG_QUESTION],
                 [Record([PONG, GAME], TYPE_A, CLASS_IN, 3600, ip)], [], []), 43))
            && r[43..] == d[27..] && r[12..27] == d[12..27]
  {
    AnswerParts(d, ip);
    AnswerFront(d, ip);
  }

  /** Four numbers of a byte each, joined by dots. */
  function Dotted(a: byte, b: byte, c: byte, d: byte): string {
    Itoa(a) + "." + Itoa(b) + "." + Itoa(c) + "." + Itoa(d)
  }

  lemma DottedSplits(a: byte, b: byte, c: byte, d: byte)
    ensures Pieces(Dotted(a, b, c, d), ".") == [Itoa(a), Itoa(b), Itoa(c), Itoa(d)]
  {
    var parts := [Itoa(a), Itoa(b), Itoa(c), Itoa(d)];
    NumberIsFree(a);
    NumberIsFree(b);
    NumberIsFree(c);
    NumberIsFree(d);
    FourJoined(parts);
    SplitJoin(parts, '.');
  }

  lemma NumberIsFree(n: byte)
    ensures '.' !in Itoa(n)
  {
    var digits := Digits(n);
    assert forall i :: 0 <= i < |digits| ==> digits[i] != '.';
  }

  lemma FourNumbers(a: byte, b: byte, c: byte, d: byte)
    ensures AllNumeric([Itoa(a), Itoa(b), Itoa(c), Itoa(d)])
  {
    OctetIsRead(a);
    OctetIsRead(b);
    OctetIsRead(c);
    OctetIsRead(d);
  }

  lemma FourJoined(p: seq<string>)
    requires |p| == 4
    ensures Join(p, ".") == p[0] + "." + p[1] + "." + p[2] + "." + p[3]
  {
    assert Join(p[3..], ".") == p[3];
    assert Join(p[2..], ".") == p[2] + "." + Join(p[2..][1..], ".") && p[2..][1..] == p[3..];
    assert Join(p[1..], ".") == p[1] + "." + Join(p[1..][1..], ".") && p[1..][1..] == p[2..];
    assert p[0] + "." + (p[1] + "." + (p[2] + "." + p[3])) == p[0] + "." + p[1] + "." + p[2] + "." + p[3];
  }

  /** A reply that reads as the answer to the query, with one address record. */
  predicate AnsweredWith(q: Datagram, reply: Option<Datagram>, rdata: seq<byte>)
    requires |q| >= 27
  {
    && reply.Some? && |reply.value| == |q| + 16
    && AnswersHeader(ParseHeader(q), ParseHeader(reply.value))
    && ParseFront(reply.value) == Some(Parsed(Message(ParseHeader(reply.value), [PONG_QUESTION],
         [Record([PONG, GAME], TYPE_A, CLASS_IN, 3600, rdata)], [], []), 43))
  }

  /** A server started with an address answers every accepted query, in any run, with that address. */
  method Start(a: byte, b: byte, c: byte, d: byte, received: seq<Option<Datagram>>)
    returns (replies: seq<Option<Datagram>>)
    ensures |replies| == |received|
    ensures forall i :: 0 <= i < |received| && received[i].Some? ==>
      var q := received[i].value;
      Accepted(q) && |q| < 100 ==> AnsweredWith(q, replies[i], [a, b, c, d])
  {
    var server := Launch(a, b, c, d);
    replies := server.ServerLoop(received);
    AllAnswered(received, replies, [a, b, c, d]);
  }

  method Launch(a: byte, b: byte, c: byte, d: byte) returns (server: Server)
    ensures fresh(server) && fresh(server.recvBuffer) && server.Valid() && server.Configured(a, b, c, d)
  {
    DottedSplits(a, b, c, d);
    FourNumbers(a, b, c, d);
    server := new Server(Dotted(a, b, c, d));
  }

  lemma AllAnswered(received: seq<Option<Datagram>>, replies: seq<Option<Datagram>>, ip: Address)
    requires |replies| == |received| && forall i :: 0 <= i < |received| ==>
      replies[i] == match received[i] case None => None case Some(q) => Reply(q, ip)
    ensures forall i :: 0 <= i < |received| && received[i].Some? ==>
      var q := received[i].value;
      Accepted(q) && |q| < 100 ==> AnsweredWith(q, replies[i], ip)
  {
    forall i | 0 <= i < |received| && received[i].Some?
      ensures var q := received[i].value; Accepted(q) && |q| < 100 ==> AnsweredWith(q, replies[i], ip)
    {
      if Accepted(received[i].value) && |received[i].value| < 100 {
        AnswerTheorem(received[i].value, ip);
      }
    }
  }

  lemma AnswerFront(d: Datagram, ip: Address)
    requires Accepted(d)
    ensures var r := Answer(d, ip);
            && AnswersHeader(ParseHeader(d), ParseHeader(r))
            && ParseFront(r) == Some(Parsed(Message(ParseHeader(r), [PONG_QUESTION],
                 [Record([PONG, GAME], TYPE_A, CLASS_IN, 3600, ip)], [], []), 43))
  {
    var r := Answer(d, ip);
    AnswerParts(d, ip);
    CopiedBytes(d, r);
    OneQuestion(r);
    AnswerReads(r, ip);
    assert ParseRecords(r, 43, 0) == Some(Parsed([], 43));
  }

  lemma CopiedBytes(d: seq<byte>, r: seq<byte>)
    requires |d| >= 27 && |r| >= 27 && r[..2] == d[..2] && r[4..7] == d[4..7] && r[12..27] == d[12..27]
    ensures r[0] == d[0] && r[1] == d[1] && r[4] == d[4] && r[5] == d[5] && r[6] == d[6]
    ensures r[12..23] == d[12..23] && forall i :: 12 <= i < 27 ==> r[i] == d[i]
  {
    assert r[..2][0] == d[..2][0] && r[..2][1] == d[..2][1];
    assert r[4..7][0] == d[4..7][0] && r[4..7][1] == d[4..7][1] && r[4..7][2] == d[4..7][2];
    forall i | 12 <= i < 27 ensures r[i] == d[i] {
      assert r[12..27][i - 12] == d[12..27][i - 12];
    }
  }

  /** A record that begins with the root name reads the same wherever it stands. */
  lemma RootRecordShifts(m: seq<byte>, m': seq<byte>, at: nat, at': nat)
    requires at < |m| && at' < |m'| && m[at..] == m'[at'..] && m[at] == 0
    ensures ParseRecord(m, at).Some? <==> ParseRecord(m', at').Some?
    ensures ParseRecord(m, at).Some? ==>
      var p, p' := ParseRecord(m, at).value, ParseRecord(m', at').value;
      p.value == p'.value && p.next - at == p'.next - at'
  {
    var t := m[at..];
    assert forall i :: 0 <= i < |t| ==> m[at + i] == t[i] == m'[at' + i];
    if |t| >= 11 {
      var n := U16(m, at + 9);
      assert n == U16(m', at' + 9);
      if 11 + n <= |t| {
        assert m[at + 11..at + 11 + n] == t[11..11 + n] == m'[at' + 11..at' + 11 + n];
      }
    }
  }

  /** The reply reads as a whole exactly if the query did, and carries the query's additional section. */
  lemma AdditionalTheorem(d: Datagram, ip: Address)
    requires Accepted(d)
    ensures var r := Answer(d, ip);
            && (ParseMessage(r).Some? <==> ParseMessage(d).Some?)
            && (ParseMessage(d).Some? ==> ParseMessage(r).value.additional == ParseMessage(d).value.additional)
  {
    var r := Answer(d, ip);
    AnswerParts(d, ip);
    QueryReads(d);
    FrontOfAnswer(d, ip);
    if |d| > QUERY_LENGTH {
      RootRecordShifts(d, r, 27, 43);
      OneRecord(d, 27);
      OneRecord(r, 43);
    }
  }

  lemma FrontOfAnswer(d: Datagram, ip: Address)
    requires Accepted(d)
    ensures var r := Answer(d, ip);
            ParseFront(r).Some? && ParseFront(r).value.next == 43 && ParseHeader(r).arcount == ParseHeader(d).arcount
            && ParseFront(r).value.value.header == ParseHeader(r)
  {
    AnswerFront(d, ip);
  }

  /** One question, uncompressed, in a message that carries no answers. */
  predicate ReadsAsPongQuery(d: Datagram) {
    && |d| >= 27
    && ParseFront(d) == Some(Parsed(Message(ParseHeader(d), [PONG_QUESTION], [], [], []), 27))
    && ParseHeader(d).ancount == 0 && ParseHeader(d).nscount == 0
  }

  /** Behind the question: nothing, or what begins like one EDNS0 record (section 6.1.2 of RFC 6891). */
  predicate PlainOrEdns0(d: Datagram)
    requires |d| >= 27
  {
    || (|d| == 27 && ParseHeader(d).arcount == 0)
    || (|d| >= 38 && ParseHeader(d).arcount == 1 && d[27] == 0 && U16(d, 28) == TYPE_OPT)
  }

  lemma QueryReads(d: Datagram)
    requires Accepted(d)
    ensures ReadsAsPongQuery(d) && PlainOrEdns0(d)
  {
    OneQuestion(d);
    assert ParseRecords(d, 27, 0) == Some(Parsed([], 27));
  }

  /** The byte tests accept exactly the queries that read as a question for the address of pong.game. */
  lemma AcceptanceTheorem(d: Datagram)
    ensures Accepted(d) <==> ReadsAsPongQuery(d) && PlainOrEdns0(d)
  {
    if Accepted(d) {
      QueryReads(d);
    } else if ReadsAsPongQuery(d) && PlainOrEdns0(d) {
      ReadQueryIsAccepted(d);
    }
  }

  /**
   An accepted query longer than its question is a whole message if and only if its OPT record
   (section 6.1.2 of RFC 6891) ends where the datagram ends; the byte tests do not ask for that.
   */
  lemma OptRecordReads(d: Datagram)
    requires Accepted(d) && |d| > QUERY_LENGTH
    ensures ParseMessage(d).Some? <==> 38 + U16(d, 36) == |d|
    ensures ParseMessage(d).Some? ==>
      ParseMessage(d).value.additional == [Record([], TYPE_OPT, U16(d, 30), U32(d, 32), d[38..])]
  {
    QueryReads(d);
    OneRecord(d, 27);
    assert ParseName(d, 27, 27) == Some(Parsed([], 28));
    if 38 + U16(d, 36) == |d| {
      assert d[38..38 + U16(d, 36)] == d[38..];
    }
  }

  const QUERY_HEADER: seq<byte> := [0, 7, 1, 0, 0, 1, 0, 0, 0, 0, 0, 1]
  const A_IN: seq<byte> := [0, 1, 0, 1]
  /** An OPT record that announces one byte of data and has none. */
  const SHORT_OPT: seq<byte> := [0, 0, 0x29, 4, 208, 0, 0, 0, 0, 0, 1]
  const SHORT_QUERY := QUERY_HEADER + PONG_GAME + A_IN + SHORT_OPT

  /** A query that is accepted, though it is no whole message. */
  lemma ShortRecordIsAccepted()
    ensures Accepted(SHORT_QUERY) && ParseMessage(SHORT_QUERY).None?
  {
    var d := SHORT_QUERY;
    assert d[..12] == QUERY_HEADER && d[12..23] == PONG_GAME && d[23..27] == A_IN && d[27..] == SHORT_OPT;
    assert forall i :: 0 <= i < 12 ==> d[i] == QUERY_HEADER[i];
    assert forall i :: 0 <= i < 4 ==> d[23 + i] == A_IN[i];
    assert forall i :: 0 <= i < 11 ==> d[27 + i] == SHORT_OPT[i];
    OptRecordReads(d);
  }

  lemma ReadQueryIsAccepted(d: Datagram)
    requires ReadsAsPongQuery(d) && PlainOrEdns0(d)
    ensures Accepted(d)
  {
    var h := ParseHeader(d);
    QuestionCount(d, 12, h.qdcount);
    assert h.qdcount == 1;
    QuestionAlone(d, 12);
    var q := ParseQuestion(d, 12).value;
    assert ParseQuestions(d, 12, 1) == Some(Parsed([q.value], q.next));
    assert ParseRecords(d, q.next, 0) == Some(Parsed([], q.next));
    assert [q.value][0] == [PONG_QUESTION][0];
    NameReads(d);
  }

  lemma {:induction false} QuestionCount(m: seq<byte>, at: nat, count: nat)
    ensures ParseQuestions(m, at, count).Some? ==> |ParseQuestions(m, at, count).value.value| == count
    decreases count
  {
    if count > 0 && ParseQuestion(m, at).Some? {
      QuestionCount(m, ParseQuestion(m, at).value.next, count - 1);
    }
  }

  /** A name error changes the flags and the counts of the answer and authority sections, nothing else. */
  lemma NxDomainTheorem(d: Datagram, ip: Address)
    requires 24 <= |d| < 100 && !HasPongGameQueryName(d)
    ensures Reply(d, ip).Some? && |Reply(d, ip).value| == |d|
    ensures var r := Reply(d, ip).value;
            && (forall i :: 0 <= i < |d| && i !in {2, 3, 6, 7, 8, 9} ==> r[i] == d[i])
            && ParseHeader(r).response && ParseHeader(r).rcode == NXDOMAIN
            && ParseHeader(r).ancount == 0 && ParseHeader(r).nscount == 0
            && ParseHeader(r).id == ParseHeader(d).id && ParseHeader(r).qdcount == ParseHeader(d).qdcount
            && ParseHeader(r).arcount == ParseHeader(d).arcount
  {
    var r := Reply(d, ip).value;
    var flags, counts: seq<byte> := [0x81, 0x83], [0, 0, 0, 0];
    assert r == d[..2] + flags + d[4..6] + counts + d[10..];
    assert r[2] == flags[0] && r[3] == flags[1];
    assert r[6] == counts[0] && r[7] == counts[1] && r[8] == counts[2] && r[9] == counts[3];
  }

  /**
   Other lengths get no reply. Among these lengths silence meets exactly the messages whose
   question, read by the parser, names pong.game, but which do not read as an accepted query.
   */
  lemma SilenceTheorem(d: Datagram, ip: Address)
    ensures !(24 <= |d| < 100) ==> Reply(d, ip).None?
    ensures 24 <= |d| < 100 ==>
      (Reply(d, ip).None? <==>
        && |d| >= 27 && ParseName(d, 12, 12) == Some(Parsed([PONG, GAME], 23))
        && !(ReadsAsPongQuery(d) && PlainOrEdns0(d)))
  {
    if |d| >= 27 {
      NameReads(d);
      AcceptanceTheorem(d);
    }
  }

  // --------------------------------------------- what section 4.1.1 asks and is kept only sometimes

  /** The reply repeats opcode and recursion-desired flag exactly for standard queries that desire recursion. */
  lemma FlagsCopied(d: Datagram, ip: Address)
    requires Accepted(d)
    ensures var q, r := ParseHeader(d), ParseHeader(Answer(d, ip));
            r.opcode == q.opcode && r.recursionDesired == q.recursionDesired <==> q.opcode == 0 && q.recursionDesired
  {
    AnswerParts(d, ip);
  }

  function Lower(b: byte): byte { if 65 <= b <= 90 then b + 32 else b }

  function LowerAll(s: seq<byte>): seq<byte> { seq(|s|, i requires 0 <= i < |s| => Lower(s[i])) }

  /** Names compare without regard to case (section 2.3.3), but only the lower-case spelling is known here. */
  lemma CaseMatters(d: Datagram, ip: Address)
    requires 27 <= |d| < 100 && LowerAll(d[12..23]) == PONG_GAME
    ensures Reply(d, ip) == Some(NxDomain(d)) <==> d[12..23] != PONG_GAME
  {
    if Accepted(d) {
      AnswerParts(d, ip);
      assert |Answer(d, ip)| != |NxDomain(d)|;
    }
  }
}
