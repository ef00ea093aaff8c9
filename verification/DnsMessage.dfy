/** Reading DNS messages as sections 3.2, 4.1 and 4.1.4 of RFC 1035 lay them out. */
module DnsMessage {
  import opened Wrappers
  import opened Bitwise

  type Label = seq<byte>
  datatype Question = Question(name: seq<Label>, qtype: nat, qclass: nat)
  datatype Record = Record(name: seq<Label>, rtype: nat, rclass: nat, ttl: nat, rdata: seq<byte>)
  datatype Header = Header(
    id: nat, response: bool, opcode: nat, authoritative: bool, truncated: bool, recursionDesired: bool,
    recursionAvailable: bool, rcode: nat, qdcount: nat, ancount: nat, nscount: nat, arcount: nat)

  const TYPE_A := 1
  const TYPE_OPT := 41
  const CLASS_IN := 1
  const NOERROR := 0
  const NXDOMAIN := 3

  function U16(m: seq<byte>, at: nat): nat
    requires at + 2 <= |m|
  {
    var high: nat, low: nat := m[at], m[at + 1];
    256 * high + low
  }

  function U32(m: seq<byte>, at: nat): nat
    requires at + 4 <= |m|
  {
    0x1_0000 * U16(m, at) + U16(m, at + 2)
  }

  function ParseHeader(m: seq<byte>): Header
    requires |m| >= 12
  {
    Header(U16(m, 0), m[2] / 128 == 1, m[2] / 8 % 16, m[2] / 4 % 2 == 1, m[2] / 2 % 2 == 1, m[2] % 2 == 1,
           m[3] / 128 == 1, m[3] % 16, U16(m, 4), U16(m, 6), U16(m, 8), U16(m, 10))
  }

  /** A result, and where it ends. */
  datatype Parsed<T> = Parsed(value: T, next: nat)

  /**
   The name at a place in the run of labels that began at start: labels, ending in
   the root or in a pointer to an earlier place.
   */
  function ParseName(m: seq<byte>, start: nat, at: nat): Option<Parsed<seq<Label>>>
    decreases start, |m| - at
  {
    if at >= |m| then None
    else if m[at] == 0 then Some(Parsed([], at + 1))
    else if m[at] < 64 then
      var next := at + 1 + m[at];
      if next > |m| then None
      else
        match ParseName(m, start, next)
        case None => None
        case Some(rest) => Some(Parsed([m[at + 1..next]] + rest.value, rest.next))
    else if m[at] >= 192 && at + 1 < |m| then
      var target := U16(m, at) - 0xC000;
      if target >= start then None
      else
        match ParseName(m, target, target)
        case None => None
        case Some(rest) => Some(Parsed(rest.value, at + 2))
    else None
  }

  function ParseQuestion(m: seq<byte>, at: nat): Option<Parsed<Question>> {
    match ParseName(m, at, at)
    case None => None
    case Some(n) =>
      if n.next + 4 > |m| then None
      else Some(Parsed(Question(n.value, U16(m, n.next), U16(m, n.next + 2)), n.next + 4))
  }

  function ParseRecord(m: seq<byte>, at: nat): Option<Parsed<Record>> {
    match ParseName(m, at, at)
    case None => None
    case Some(n) =>
      if n.next + 10 > |m| then None
      else
        var rdata, length := n.next + 10, U16(m, n.next + 8);
        if rdata + length > |m| then None
        else
          var data := m[rdata..rdata + length];
          Some(Parsed(Record(n.value, U16(m, n.next), U16(m, n.next + 2), U32(m, n.next + 4), data), rdata + length))
  }

  function ParseQuestions(m: seq<byte>, at: nat, count: nat): Option<Parsed<seq<Question>>>
    decreases count
  {
    if count == 0 then Some(Parsed([], at))
    else
      match ParseQuestion(m, at)
      case None => None
      case Some(q) =>
        match ParseQuestions(m, q.next, count - 1)
        case None => None
        case Some(rest) => Some(Parsed([q.value] + rest.value, rest.next))
  }

  function ParseRecords(m: seq<byte>, at: nat, count: nat): Option<Parsed<seq<Record>>>
    decreases count
  {
    if count == 0 then Some(Parsed([], at))
    else
      match ParseRecord(m, at)
      case None => None
      case Some(r) =>
        match ParseRecords(m, r.next, count - 1)
        case None => None
        case Some(rest) => Some(Parsed([r.value] + rest.value, rest.next))
  }

  datatype Message = Message(header: Header, questions: seq<Question>,
                             answers: seq<Record>, authorities: seq<Record>, additional: seq<Record>)

  /** Everything in front of the additional section. */
  function ParseFront(m: seq<byte>): Option<Parsed<Message>> {
    if |m| < 12 then None
    else
      var h := ParseHeader(m);
      match ParseQuestions(m, 12, h.qdcount)
      case None => None
      case Some(q) =>
        match ParseRecords(m, q.next, h.ancount)
        case None => None
        case Some(an) =>
          match ParseRecords(m, an.next, h.nscount)
          case None => None
          case Some(ns) => Some(Parsed(Message(h, q.value, an.value, ns.value, []), ns.next))
  }

  /** A whole message; None unless every byte belongs to a section. */
  function ParseMessage(m: seq<byte>): Option<Message> {
    match ParseFront(m)
    case None => None
    case Some(front) =>
      match ParseRecords(m, front.next, front.value.header.arcount)
      case None => None
      case Some(ar) => if ar.next == |m| then Some(front.value.(additional := ar.value)) else None
  }
}
