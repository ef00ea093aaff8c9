/** Splitting and joining of texts, decimal numbers, and the frame text between game engine and screen. */
module Text {
  import opened Wrappers

  // ------------------------------------------------------------------ splitting

  /** Where the first occurrence of the delimiter starts. */
  function Find(s: string, delimiter: string): (r: Option<nat>)
    ensures r.Some? ==> r.value + |delimiter| <= |s| && s[r.value..r.value + |delimiter|] == delimiter
  {
    if |s| < |delimiter| then None
    else if s[..|delimiter|] == delimiter then Some(0)
    else if s == "" then None
    else
      match Find(s[1..], delimiter)
      case None => None
      case Some(p) => assert s[1..][p..p + |delimiter|] == s[p + 1..p + 1 + |delimiter|]; Some(p + 1)
  }

  predicate OccursAt(s: string, delimiter: string, k: nat) {
    k + |delimiter| <= |s| && s[k..k + |delimiter|] == delimiter
  }

  lemma SliceOfTail(s: string, k: nat, delimiter: string)
    requires 0 < k && s != ""
    ensures OccursAt(s[1..], delimiter, k - 1) == OccursAt(s, delimiter, k)
  {
    if k + |delimiter| <= |s| {
      assert s[1..][k - 1..k - 1 + |delimiter|] == s[k..k + |delimiter|];
    }
  }

  /** Find finds the first occurrence, if there is one. */
  lemma {:induction false} FindIsFirst(s: string, delimiter: string, k: nat)
    requires delimiter != ""
    requires match Find(s, delimiter) case None => true case Some(p) => k < p
    ensures !OccursAt(s, delimiter, k)
  {
    if |s| >= |delimiter| && s[..|delimiter|] != delimiter {
      FindTail(s, delimiter);
      if k > 0 {
        SliceOfTail(s, k, delimiter);
        FindIsFirst(s[1..], delimiter, k - 1);
      }
    }
  }

  lemma FindTail(s: string, delimiter: string)
    requires delimiter != "" && |s| >= |delimiter| && s[..|delimiter|] != delimiter
    ensures Find(s, delimiter) == match Find(s[1..], delimiter) case None => None case Some(p) => Some(p + 1)
    ensures !OccursAt(s, delimiter, 0)
  {
    assert s[0..|delimiter|] == s[..|delimiter|];
  }

  /** The text between the delimiters. */
  function Pieces(s: string, delimiter: string): (r: seq<string>)
    requires delimiter != ""
    ensures r != []
    decreases |s|
  {
    match Find(s, delimiter)
    case None => [s]
    case Some(p) => [s[..p]] + Pieces(s[p + |delimiter|..], delimiter)
  }

  function Join(parts: seq<string>, delimiter: string): string
    requires parts != []
  {
    if |parts| == 1 then parts[0] else parts[0] + delimiter + Join(parts[1..], delimiter)
  }

  /** Both references are updated in place: the text keeps the last piece, the pieces are appended to the result. */
  method Split(s: string, delimiter: string, result: seq<string>) returns (s': string, result': seq<string>)
    requires delimiter != ""
    ensures result' == result + Pieces(s, delimiter)
    ensures s' == Pieces(s, delimiter)[|Pieces(s, delimiter)| - 1]
  {
    s', result' := s, result;
    ghost var all := Pieces(s, delimiter);
    ghost var left := all;
    var pos := Find(s', delimiter);
    while pos.Some?
      invariant pos == Find(s', delimiter) && left == Pieces(s', delimiter)
      invariant result' + left == result + all
      decreases |s'|
    {
      left := PiecesBehind(s', delimiter, pos.value);
      result' := result' + [s'[..pos.value]];
      s' := s'[pos.value + |delimiter|..];
      pos := Find(s', delimiter);
    }
    result' := result' + [s'];
    SameLast(result, all, result', s');
  }

  /** The pieces behind the first one; appending that one to a list keeps the list and the pieces together. */
  ghost function PiecesBehind(s: string, delimiter: string, p: nat): (r: seq<string>)
    requires delimiter != "" && Find(s, delimiter) == Some(p)
    ensures [s[..p]] + r == Pieces(s, delimiter)
    ensures forall result: seq<string> {:trigger result + Pieces(s, delimiter)} ::
      (result + [s[..p]]) + r == result + Pieces(s, delimiter)
  {
    Pieces(s[p + |delimiter|..], delimiter)
  }

  lemma SameLast(result: seq<string>, all: seq<string>, result': seq<string>, last: string)
    requires all != [] && result' != [] && result' == result + all && result'[|result'| - 1] == last
    ensures all[|all| - 1] == last
  {
  }

  lemma JoinCons(part: string, parts: seq<string>, delimiter: string)
    requires parts != []
    ensures Join([part] + parts, delimiter) == part + delimiter + Join(parts, delimiter)
  {
    assert ([part] + parts)[1..] == parts;
  }

  /** Nothing is lost: joining the pieces gives the text back. */
  lemma {:induction false} JoinPieces(s: string, delimiter: string)
    requires delimiter != ""
    ensures Join(Pieces(s, delimiter), delimiter) == s
    decreases |s|
  {
    match Find(s, delimiter)
    case None =>
    case Some(p) =>
      var rest := s[p + |delimiter|..];
      JoinPieces(rest, delimiter);
      JoinCons(s[..p], Pieces(rest, delimiter), delimiter);
      assert s == s[..p] + delimiter + rest;
  }

  /** Every piece is free of the delimiter. */
  lemma {:induction false} PiecesAreFree(s: string, delimiter: string, i: nat, k: nat)
    requires delimiter != "" && i < |Pieces(s, delimiter)|
    ensures !OccursAt(Pieces(s, delimiter)[i], delimiter, k)
    decreases |s|
  {
    match Find(s, delimiter)
    case None => FindIsFirst(s, delimiter, k);
    case Some(p) =>
      PieceOf(s, delimiter, p, i);
      if i > 0 {
        PiecesAreFree(s[p + |delimiter|..], delimiter, i - 1, k);
      } else {
        FirstPieceIsFree(s, delimiter, p, k);
      }
  }

  lemma PieceOf(s: string, delimiter: string, p: nat, i: nat)
    requires delimiter != "" && Find(s, delimiter) == Some(p) && i < |Pieces(s, delimiter)|
    ensures var behind := Pieces(s[p + |delimiter|..], delimiter);
            if i == 0 then Pieces(s, delimiter)[i] == s[..p]
            else i - 1 < |behind| && Pieces(s, delimiter)[i] == behind[i - 1]
  {
    var behind := PiecesBehind(s, delimiter, p);
    AtCons(s[..p], behind, Pieces(s, delimiter), i);
  }

  lemma AtCons(first: string, behind: seq<string>, all: seq<string>, i: nat)
    requires all == [first] + behind && i < |all|
    ensures if i == 0 then all[i] == first else i - 1 < |behind| && all[i] == behind[i - 1]
  {
  }

  lemma FirstPieceIsFree(s: string, delimiter: string, p: nat, k: nat)
    requires delimiter != "" && Find(s, delimiter) == Some(p)
    ensures !OccursAt(s[..p], delimiter, k)
  {
    if k < p {
      FindIsFirst(s, delimiter, k);
      if k + |delimiter| <= p {
        assert s[..p][k..k + |delimiter|] == s[k..k + |delimiter|];
      }
    }
  }

  lemma {:induction false} FindAfterFree(a: string, c: char, rest: string)
    requires c !in a
    ensures Find(a + [c] + rest, [c]) == Some(|a|)
  {
    var s := a + [c] + rest;
    assert s[..1] == [s[0]];
    if a != "" {
      assert s[0] == a[0] != c;
      FindAfterFree(a[1..], c, rest);
      assert s[1..] == a[1..] + [c] + rest;
    }
  }

  lemma {:induction false} FindNothing(a: string, c: char)
    requires c !in a
    ensures Find(a, [c]) == None
  {
    if a != "" {
      assert a[..1] == [a[0]] && a[0] != c;
      FindNothing(a[1..], c);
    }
  }

  /** Splitting undoes joining when no part holds the delimiter character. */
  lemma {:induction false} SplitJoin(parts: seq<string>, c: char)
    requires parts != [] && forall i :: 0 <= i < |parts| ==> c !in parts[i]
    ensures Pieces(Join(parts, [c]), [c]) == parts
  {
    if |parts| == 1 {
      FindNothing(parts[0], c);
    } else {
      var rest := Join(parts[1..], [c]);
      FindAfterFree(parts[0], c, rest);
      SplitJoin(parts[1..], c);
      var s := parts[0] + [c] + rest;
      assert s[|parts[0]| + 1..] == rest && s[..|parts[0]|] == parts[0];
    }
  }

  // ------------------------------------------------------------ decimal numbers

  predicate IsDigit(c: char) { '0' <= c <= '9' }

  function Digits(n: nat): (r: string)
    ensures r != "" && forall i :: 0 <= i < |r| ==> IsDigit(r[i])
  {
    var last := [('0' as int + n % 10) as char];
    if n < 10 then last else Digits(n / 10) + last
  }

  /** Decimal notation, as Python's str prints an int. */
  function Itoa(n: int): string { if n < 0 then "-" + Digits(-n) else Digits(n) }

  function DigitCount(s: string): (r: nat)
    ensures r <= |s| && forall i :: 0 <= i < r ==> IsDigit(s[i])
  {
    if s == "" || !IsDigit(s[0]) then 0 else 1 + DigitCount(s[1..])
  }

  function Digit(c: char): nat
    requires IsDigit(c)
  {
    c as int - '0' as int
  }

  function Value(digits: string): nat
    requires forall i :: 0 <= i < |digits| ==> IsDigit(digits[i])
  {
    if digits == "" then 0
    else
      var last := |digits| - 1;
      10 * Value(digits[..last]) + Digit(digits[last])
  }

  function SkipSpaces(s: string): string {
    if s != "" && (s[0] == ' ' || '\t' <= s[0] <= '\r') then SkipSpaces(s[1..]) else s
  }

  /** The part of stoi behind spaces and sign. */
  function Magnitude(u: string): Option<nat> {
    var n := DigitCount(u);
    if n == 0 then None else Some(Value(u[..n]))
  }

  /** C++ stoi: spaces, an optional sign, then digits up to the first other character; None where it throws. */
  function Stoi(s: string): (r: Option<int>)
    ensures r.Some? ==> -0x8000_0000 <= r.value < 0x8000_0000
  {
    var t := SkipSpaces(s);
    var negative := t != "" && t[0] == '-';
    var u := if t != "" && (t[0] == '-' || t[0] == '+') then t[1..] else t;
    match Magnitude(u)
    case None => None
    case Some(m) =>
      var magnitude: int := m;
      var v := if negative then -magnitude else magnitude;
      if v < -0x8000_0000 || v >= 0x8000_0000 then None else Some(v)
  }

  lemma {:induction false} ValueOfDigits(n: nat)
    ensures Value(Digits(n)) == n
  {
    var d := Digits(n);
    var last := |d| - 1;
    if n >= 10 {
      ValueOfDigits(n / 10);
      assert d[..last] == Digits(n / 10);
    } else {
      assert d[..last] == "";
    }
  }

  lemma {:induction false} AllDigits(s: string)
    requires forall i :: 0 <= i < |s| ==> IsDigit(s[i])
    ensures DigitCount(s) == |s|
  {
    if s != "" { AllDigits(s[1..]); }
  }

  function Pow10(k: nat): (r: nat)
    ensures r > 0
  {
    if k == 0 then 1 else 10 * Pow10(k - 1)
  }

  /** Decimal notation: place i from the right holds the multiple of 10^i. */
  lemma {:induction false} DecimalPlaces(n: nat, i: nat)
    requires i < |Digits(n)|
    ensures Digits(n)[|Digits(n)| - 1 - i] as int - 48 == n / Pow10(i) % 10
  {
    if i == 0 {
      LastDigit(n);
    } else {
      DigitsShift(n, i);
      DecimalPlaces(n / 10, i - 1);
      PlaceUp(n, i);
    }
  }

  lemma PlaceUp(n: nat, i: nat)
    requires i > 0
    ensures n / 10 / Pow10(i - 1) % 10 == n / Pow10(i) % 10
  {
    DivideTwice(n, Pow10(i - 1));
  }

  lemma LastDigit(n: nat)
    ensures Digits(n)[|Digits(n)| - 1] as int - 48 == n % 10 == n / Pow10(0) % 10
  {
  }

  lemma DigitsShift(n: nat, i: nat)
    requires 0 < i < |Digits(n)|
    ensures i - 1 < |Digits(n / 10)| && Digits(n)[|Digits(n)| - 1 - i] == Digits(n / 10)[|Digits(n / 10)| - 1 - (i - 1)]
  {
    var front := Digits(n / 10);
    assert n >= 10 && |Digits(n)| == |front| + 1;
  }

  /** As many digits as are needed: no zero stands in front. */
  lemma {:induction false} DecimalLength(n: nat)
    ensures Pow10(|Digits(n)|) > n && (n > 0 ==> Pow10(|Digits(n)| - 1) <= n) && (n == 0 ==> Digits(n) == "0")
  {
    if n >= 10 {
      DecimalLength(n / 10);
    }
  }

  lemma DivideTwice(n: nat, m: nat)
    requires m > 0
    ensures n / 10 / m == n / (10 * m)
  {
    var a, b, c := n / 10 / m, n / 10 % m, n % 10;
    assert n == 10 * (a * m + b) + c && 10 * (a * m) == (10 * m) * a;
    Quotient(n, 10 * m, a, 10 * b + c);
  }

  lemma Quotient(n: nat, m: nat, a: nat, rest: nat)
    requires m > 0 && n == m * a + rest && rest < m
    ensures n / m == a
  {
    var q, r := n / m, n % m;
    AtLeast(m, a - q);
    AtLeast(m, q - a);
    assert m * (a - q) == r - rest && m * (q - a) == rest - r;
  }

  lemma AtLeast(m: nat, d: int)
    ensures d > 0 ==> m * d >= m
  {
  }

  /** Neither a digit nor a sign is skipped. */
  lemma NothingSkipped(s: string)
    requires s != "" && (IsDigit(s[0]) || s[0] == '-')
    ensures SkipSpaces(s) == s
  {
  }

  lemma MagnitudeOfDigits(m: nat)
    ensures Magnitude(Digits(m)) == Some(m)
  {
    var d := Digits(m);
    ValueOfDigits(m);
    AllDigits(d);
    assert d[..|d|] == d;
  }

  /** Parsing undoes printing for every number an int holds. */
  lemma StoiItoa(n: int)
    requires -0x8000_0000 <= n < 0x8000_0000
    ensures Stoi(Itoa(n)) == Some(n)
  {
    var m: nat := if n < 0 then -n else n;
    var s := Itoa(n);
    MagnitudeOfDigits(m);
    NothingSkipped(s);
    assert (if n < 0 then s[1..] else s) == Digits(m);
  }

  // ----------------------------------------------------------------- frame text

  /** What the engine reports of a frame. */
  datatype Frame = Frame(puckX: int, puckY: int, leftY: int, rightY: int, leftScore: int, rightScore: int)

  function Numbers(f: Frame): (r: seq<int>)
    ensures |r| == 6
  {
    [f.puckX, f.puckY, f.leftY, f.rightY, f.leftScore, f.rightScore]
  }

  function FrameFields(f: Frame): (r: seq<string>)
    ensures |r| == 6
  {
    seq(6, i requires 0 <= i < 6 => Itoa(Numbers(f)[i]))
  }

  function FrameText(f: Frame): string {
    Itoa(f.puckX) + ("," + (Itoa(f.puckY) + ("," + (Itoa(f.leftY) + ("," + (Itoa(f.rightY) + ("," +
      (Itoa(f.leftScore) + ("," + Itoa(f.rightScore))))))))))
  }

  predicate AllNumeric(fields: seq<string>) {
    forall i {:trigger Stoi(fields[i])} :: 0 <= i < |fields| ==> Stoi(fields[i]).Some?
  }

  /** Parses six fields, as the screen does one by one. */
  function ParseFrame(fields: seq<string>): Option<Frame> {
    if |fields| == 6 && AllNumeric(fields) then
      Some(Frame(Stoi(fields[0]).value, Stoi(fields[1]).value, Stoi(fields[2]).value,
                 Stoi(fields[3]).value, Stoi(fields[4]).value, Stoi(fields[5]).value))
    else None
  }

  lemma JoinTwo(parts: seq<string>)
    requires |parts| >= 2
    ensures Join(parts, ",") == parts[0] + ("," + Join(parts[1..], ","))
  {
    var rest := Join(parts[1..], ",");
    assert parts[0] + "," + rest == parts[0] + ("," + rest);
  }

  predicate FrameFits(f: Frame) {
    forall i :: 0 <= i < 6 ==> -0x8000_0000 <= Numbers(f)[i] < 0x8000_0000
  }

  lemma FieldsRoundTrip(f: Frame)
    requires FrameFits(f)
    ensures ParseFrame(FrameFields(f)) == Some(f)
  {
    var n, fields := Numbers(f), FrameFields(f);
    forall i | 0 <= i < 6 ensures Stoi(fields[i]) == Some(n[i]) {
      StoiItoa(n[i]);
    }
  }

  /** The screen recovers exactly the six numbers of the engine. */
  lemma FrameRoundTrip(f: Frame)
    requires FrameFits(f)
    ensures Pieces(FrameText(f), ",") == FrameFields(f)
    ensures ParseFrame(Pieces(FrameText(f), ",")) == Some(f)
  {
    FrameTextJoins(f);
    forall i | 0 <= i < 6 ensures ',' !in FrameFields(f)[i] {
      ItoaHasNoComma(Numbers(f)[i]);
    }
    SplitJoin(FrameFields(f), ',');
    FieldsRoundTrip(f);
  }

  /** The wire format: position of the puck, heights of the paddles, scores. */
  lemma FrameOrder(f: Frame)
    requires FrameFits(f)
    ensures Pieces(FrameText(f), ",")
         == [Itoa(f.puckX), Itoa(f.puckY), Itoa(f.leftY), Itoa(f.rightY), Itoa(f.leftScore), Itoa(f.rightScore)]
  {
    FrameRoundTrip(f);
    FieldsInOrder(f);
  }

  lemma FieldsInOrder(f: Frame)
    ensures FrameFields(f)
         == [Itoa(f.puckX), Itoa(f.puckY), Itoa(f.leftY), Itoa(f.rightY), Itoa(f.leftScore), Itoa(f.rightScore)]
  {
  }

  lemma FrameTextJoins(f: Frame)
    ensures FrameText(f) == Join(FrameFields(f), ",")
  {
    var p := FrameFields(f);
    JoinTwo(p);
    JoinTwo(p[1..]);
    JoinTwo(p[1..][1..]);
    JoinTwo(p[1..][1..][1..]);
    JoinTwo(p[1..][1..][1..][1..]);
    assert Join(p, ",") == p[0] + ("," + Join(p[1..], ","));
    assert Join(p[1..], ",") == p[1] + ("," + Join(p[1..][1..], ","));
    assert Join(p[1..][1..], ",") == p[2] + ("," + Join(p[1..][1..][1..], ","));
    assert Join(p[1..][1..][1..], ",") == p[3] + ("," + Join(p[1..][1..][1..][1..], ","));
  }

  lemma ItoaHasNoComma(n: int)
    ensures ',' !in Itoa(n)
  {
    var d := Digits(if n < 0 then -n else n);
    assert forall i :: 0 <= i < |d| ==> d[i] != ',';
  }
}
