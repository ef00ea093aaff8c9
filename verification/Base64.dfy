/** The Base64 encoder of the browser library, and an independent decoder after section 4 of RFC 4648. */
module Base64 {
  import opened Wrappers
  import opened Bitwise

  const UPPER_CASE := "ABCDEFGHIJKLMNOPQRSTUVWXYZ"
  const LOWER_CASE := "abcdefghijklmnopqrstuvwxyz"
  const DIGITS_AND_SIGNS := "0123456789+/"
  const KEY_STR := UPPER_CASE + LOWER_CASE + DIGITS_AND_SIGNS + "="

  /** Character codes of a string. */
  type Codes = s: seq<nat> | forall i :: 0 <= i < |s| ==> s[i] < 0x1_0000

  /** charAt: nothing outside the string. */
  function CharAt(key: string, i: nat): string { if i < |key| then [key[i]] else "" }

  /** charCodeAt as the bit operators see it: NaN counts as 0. */
  function CodeAt(s: Codes, i: nat): nat { if i < |s| then s[i] else 0 }

  function Join4(a: string, b: string, c: string, d: string): string { a + b + c + d }

  function Chars(key: string, enc1: nat, enc2: nat, enc3: nat, enc4: nat): string {
    Join4(CharAt(key, enc1), CharAt(key, enc2), CharAt(key, enc3), CharAt(key, enc4))
  }

  /** The four indices of one round; what is past the end is NaN, and index 64 the padding. */
  function Enc1(s: Codes, i: nat): nat { CodeAt(s, i) / 4 }
  function Enc2(s: Codes, i: nat): nat { Or(CodeAt(s, i) % 4 * 16, CodeAt(s, i + 1) / 16) }
  function Enc3(s: Codes, i: nat): nat {
    if i + 1 >= |s| then 64 else Or(CodeAt(s, i + 1) % 16 * 4, CodeAt(s, i + 2) / 64)
  }
  function Enc4(s: Codes, i: nat): nat { if i + 2 >= |s| then 64 else CodeAt(s, i + 2) % 64 }

  function Quad(key: string, s: Codes, i: nat): string {
    Chars(key, Enc1(s, i), Enc2(s, i), Enc3(s, i), Enc4(s, i))
  }

  function Encoded(key: string, s: Codes, i: nat): string
    decreases |s| - i
  {
    if i + 3 < |s| then Quad(key, s, i) + Encoded(key, s, i + 3) else Quad(key, s, i)
  }

  class Encoder {
    const keyStr: string
    var encoded: string

    constructor ()
      ensures keyStr == KEY_STR
    {
      keyStr := KEY_STR;
      encoded := "";
    }

    /** The four indices of the round that begins at i. */
    method EncodeRound(s: Codes, i: nat) returns (enc1: nat, enc2: nat, enc3: nat, enc4: nat)
      ensures enc1 == Enc1(s, i) && enc2 == Enc2(s, i) && enc3 == Enc3(s, i) && enc4 == Enc4(s, i)
    {
      var chr1: nat, chr2: nat, chr3: nat := CodeAt(s, i), CodeAt(s, i + 1), CodeAt(s, i + 2);
      var nan2, nan3 := i + 1 >= |s|, i + 2 >= |s|;
      enc1 := chr1 / 4;
      enc2 := Or(chr1 % 4 * 16, chr2 / 16);
      enc3 := Or(chr2 % 16 * 4, chr3 / 64);
      enc4 := chr3 % 64;
      if nan2 {
        enc3 := 64;
        enc4 := 64;
      } else if nan3 {
        enc4 := 64;
      }
    }

    /** The body runs once before the first test. */
    method Encode(s: Codes) returns (result: string)
      modifies this
      ensures result == encoded == Encoded(keyStr, s, 0)
    {
      encoded := "";
      var i := 0;
      while true
        invariant encoded + Encoded(keyStr, s, i) == Encoded(keyStr, s, 0)
        decreases |s| - i
      {
        var enc1, enc2, enc3, enc4 := EncodeRound(s, i);
        RoundAppends(encoded, keyStr, s, i);
        encoded := encoded + CharAt(keyStr, enc1) + CharAt(keyStr, enc2) + CharAt(keyStr, enc3) + CharAt(keyStr, enc4);
        i := i + 3;
        if !(i < |s|) { break; }
      }
      result := encoded;
    }
  }

  /** One round of the loop appends one round of the encoding. */
  lemma RoundAppends(before: string, key: string, s: Codes, i: nat)
    ensures var after := before + CharAt(key, Enc1(s, i)) + CharAt(key, Enc2(s, i))
                         + CharAt(key, Enc3(s, i)) + CharAt(key, Enc4(s, i));
            before + Encoded(key, s, i) == if i + 3 < |s| then after + Encoded(key, s, i + 3) else after
  {
    var a, b := CharAt(key, Enc1(s, i)), CharAt(key, Enc2(s, i));
    var c, d := CharAt(key, Enc3(s, i)), CharAt(key, Enc4(s, i));
    Appended(before, a, b, c, d);
    if i + 3 < |s| {
      Regrouped(before, Join4(a, b, c, d), Encoded(key, s, i + 3));
    }
  }

  lemma Appended(s: string, a: string, b: string, c: string, d: string)
    ensures s + a + b + c + d == s + Join4(a, b, c, d)
  {
  }

  lemma Regrouped(a: string, b: string, c: string)
    ensures a + b + c == a + (b + c)
  {
  }

  // -------------------------------------------------------------------- decoder

  /** Table 1 of RFC 4648. */
  function Sextet(c: char): (r: Option<nat>)
    ensures r.Some? ==> r.value < 64
  {
    if 'A' <= c <= 'Z' then Some(c as nat - 'A' as nat)
    else if 'a' <= c <= 'z' then Some(c as nat - 'a' as nat + 26)
    else if '0' <= c <= '9' then Some(c as nat - '0' as nat + 52)
    else if c == '+' then Some(62)
    else if c == '/' then Some(63)
    else None
  }

  /** Padding ends the text, and the bits it leaves over must be zero. */
  function Decode(t: string): Option<seq<nat>> {
    if t == "" then Some([])
    else if |t| < 4 || Sextet(t[0]).None? || Sextet(t[1]).None? then None
    else
      var a, b := Sextet(t[0]).value, Sextet(t[1]).value;
      if t[3] == '=' then
        if |t| != 4 then None
        else if t[2] == '=' then if b % 16 == 0 then Some([a * 4 + b / 16]) else None
        else if Sextet(t[2]).None? then None
        else
          var c := Sextet(t[2]).value;
          if c % 4 == 0 then Some([a * 4 + b / 16, b % 16 * 16 + c / 4]) else None
      else if Sextet(t[2]).None? || Sextet(t[3]).None? then None
      else
        var c, d := Sextet(t[2]).value, Sextet(t[3]).value;
        match Decode(t[4..])
        case None => None
        case Some(rest) => Some([a * 4 + b / 16, b % 16 * 16 + c / 4, c % 4 * 64 + d] + rest)
  }

  /** Every index below 64 reads back as itself, and index 64 is the padding. */
  predicate GoodKey(key: string) {
    && |key| == 65 && key[64] == '='
    && forall i {:trigger key[i]} :: 0 <= i < 64 ==> Sextet(key[i]) == Some(i) && key[i] != '='
  }

  lemma KeyIsGood()
    ensures GoodKey(KEY_STR)
  {
    forall i | 0 <= i < 64 ensures Sextet(KEY_STR[i]) == Some(i) && KEY_STR[i] != '=' {
      if i < 26 {
        assert KEY_STR[i] == UPPER_CASE[i];
        UpperCaseReads(i);
      } else if i < 52 {
        assert KEY_STR[i] == LOWER_CASE[i - 26];
        LowerCaseReads(i - 26);
      } else {
        assert KEY_STR[i] == DIGITS_AND_SIGNS[i - 52];
        OthersRead(i - 52);
      }
    }
  }

  lemma UpperCaseReads(i: nat)
    requires i < 26
    ensures Sextet(UPPER_CASE[i]) == Some(i)
  {
  }

  lemma LowerCaseReads(i: nat)
    requires i < 26
    ensures Sextet(LOWER_CASE[i]) == Some(i + 26)
  {
  }

  lemma OthersRead(i: nat)
    requires i < 12
    ensures Sextet(DIGITS_AND_SIGNS[i]) == Some(i + 52)
  {
  }

  predicate AllBytes(s: Codes) { forall i :: 0 <= i < |s| ==> s[i] < 256 }

  lemma {:induction false} DecodesToBytes(t: string)
    ensures Decode(t).Some? ==> forall i :: 0 <= i < |Decode(t).value| ==> Decode(t).value[i] < 256
  {
    if |t| >= 4 {
      DecodesToBytes(t[4..]);
    }
  }

  /** The indices of one round, for codes that fit a byte. */
  lemma Indices(c1: nat, c2: nat, c3: nat)
    requires c1 < 256 && c2 < 256 && c3 < 256
    ensures c1 / 4 < 64 && Or(c1 % 4 * 16, c2 / 16) == c1 % 4 * 16 + c2 / 16 < 64
    ensures Or(c2 % 16 * 4, c3 / 64) == c2 % 16 * 4 + c3 / 64 < 64 && c3 % 64 < 64
  {
    assert Pow2(4) == 16 && Pow2(2) == 4;
    OrDisjoint(c1 % 4, c2 / 16, 4);
    OrDisjoint(c2 % 16, c3 / 64, 2);
  }

  /** The codes come back from the bits of the indices. */
  lemma Recombined(c1: nat, c2: nat, c3: nat)
    requires c1 < 256 && c2 < 256 && c3 < 256
    ensures var b, c := c1 % 4 * 16 + c2 / 16, c2 % 16 * 4 + c3 / 64;
            && c1 / 4 * 4 + b / 16 == c1 && b % 16 * 16 + c / 4 == c2 && c % 4 * 64 + c3 % 64 == c3
            && c1 / 4 < 64 && b < 64 && c < 64 && c3 % 64 < 64
  {
  }

  lemma FullQuadReads(key: string, a: nat, b: nat, c: nat, d: nat, t: string)
    requires GoodKey(key) && a < 64 && b < 64 && c < 64 && d < 64
    ensures Chars(key, a, b, c, d) == [key[a], key[b], key[c], key[d]] && '=' !in Chars(key, a, b, c, d)
    ensures Decode(Chars(key, a, b, c, d) + t) == match Decode(t)
      case None => None
      case Some(rest) => Some([a * 4 + b / 16, b % 16 * 16 + c / 4, c % 4 * 64 + d] + rest)
  {
    var q := Chars(key, a, b, c, d);
    assert q == [key[a], key[b], key[c], key[d]];
    assert (q + t)[4..] == t;
    assert (q + t)[0] == key[a] && (q + t)[1] == key[b] && (q + t)[2] == key[c] && (q + t)[3] == key[d];
  }

  lemma FullQuadDecodes(key: string, c1: nat, c2: nat, c3: nat, t: string)
    requires GoodKey(key) && c1 < 256 && c2 < 256 && c3 < 256
    ensures var q := Chars(key, c1 / 4, c1 % 4 * 16 + c2 / 16, c2 % 16 * 4 + c3 / 64, c3 % 64);
            |q| == 4 && '=' !in q && QuadGives(q, t, [c1, c2, c3])
  {
    Recombined(c1, c2, c3);
    QuadFrom(key, c1 / 4, c1 % 4 * 16 + c2 / 16, c2 % 16 * 4 + c3 / 64, c3 % 64, [c1, c2, c3], t);
  }

  lemma QuadFrom(key: string, a: nat, b: nat, c: nat, d: nat, codes: seq<nat>, t: string)
    requires GoodKey(key) && a < 64 && b < 64 && c < 64 && d < 64
    requires codes == [a * 4 + b / 16, b % 16 * 16 + c / 4, c % 4 * 64 + d]
    ensures |Chars(key, a, b, c, d)| == 4 && '=' !in Chars(key, a, b, c, d)
    ensures QuadGives(Chars(key, a, b, c, d), t, codes)
  {
    FullQuadReads(key, a, b, c, d, t);
  }

  lemma TwoCodesDecode(key: string, c1: nat, c2: nat)
    requires GoodKey(key) && c1 < 256 && c2 < 256
    ensures var q := Chars(key, c1 / 4, c1 % 4 * 16 + c2 / 16, c2 % 16 * 4, 64);
            |q| == 4 && q[0] != '=' && q[1] != '=' && q[2] != '=' && q[3] == '=' && Decode(q) == Some([c1, c2])
  {
    var a, b, c := c1 / 4, c1 % 4 * 16 + c2 / 16, c2 % 16 * 4;
    Recombined(c1, c2, 0);
    var q := Chars(key, a, b, c, 64);
    assert q == [key[a], key[b], key[c], key[64]];
  }

  lemma OneCodeDecodes(key: string, c1: nat)
    requires GoodKey(key) && c1 < 256
    ensures var q := Chars(key, c1 / 4, c1 % 4 * 16, 64, 64);
            |q| == 4 && q[0] != '=' && q[1] != '=' && q[2] == q[3] == '=' && Decode(q) == Some([c1])
  {
    var a, b := c1 / 4, c1 % 4 * 16;
    Recombined(c1, 0, 0);
    var q := Chars(key, a, b, 64, 64);
    assert q == [key[a], key[b], key[64], key[64]];
  }

  /**
   The indices of a round are the digits to base 64 of its 24 bits; of a short round they are the
   digits of the bits there are, filled up with zeros, and the pad for every digit there is not.
   */
  lemma RoundSplitsBits(s: Codes, i: nat)
    requires AllBytes(s) && i < |s|
    ensures Enc1(s, i) < 64 && Enc2(s, i) < 64
    ensures i + 3 <= |s| ==>
      && Enc3(s, i) < 64 && Enc4(s, i) < 64
      && 0x4_0000 * Enc1(s, i) + 0x1000 * Enc2(s, i) + 0x40 * Enc3(s, i) + Enc4(s, i)
         == 0x1_0000 * s[i] + 0x100 * s[i + 1] + s[i + 2]
    ensures i + 2 == |s| ==>
      && Enc3(s, i) < 64 && Enc4(s, i) == 64
      && 0x1000 * Enc1(s, i) + 0x40 * Enc2(s, i) + Enc3(s, i) == 4 * (0x100 * s[i] + s[i + 1])
    ensures i + 1 == |s| ==> Enc3(s, i) == Enc4(s, i) == 64 && 0x40 * Enc1(s, i) + Enc2(s, i) == 16 * s[i]
  {
    Indices(CodeAt(s, i), CodeAt(s, i + 1), CodeAt(s, i + 2));
  }

  predicate QuadGives(q: string, t: string, codes: seq<nat>) {
    Decode(q + t) == match Decode(t) case None => None case Some(rest) => Some(codes + rest)
  }

  /** A round of three codes, decoded in front of any text. */
  lemma WholeQuadDecodes(key: string, s: Codes, i: nat, t: string)
    requires GoodKey(key) && AllBytes(s) && i + 3 <= |s|
    ensures |Quad(key, s, i)| == 4 && '=' !in Quad(key, s, i) && QuadGives(Quad(key, s, i), t, s[i..i + 3])
  {
    Indices(s[i], s[i + 1], s[i + 2]);
    FullQuadDecodes(key, s[i], s[i + 1], s[i + 2], t);
    assert s[i..i + 3] == [s[i], s[i + 1], s[i + 2]];
  }

  /** A last round: it decodes to what is left, and pads what is missing. */
  predicate EndsWith(q: string, left: seq<nat>) {
    && |q| == 4 && Decode(q) == Some(left)
    && forall k :: 0 <= k < 4 ==> (q[k] == '=' <==> k >= 4 - Missing(|left|))
  }

  lemma LastThree(key: string, s: Codes, i: nat)
    requires GoodKey(key) && AllBytes(s) && i + 3 == |s|
    ensures EndsWith(Quad(key, s, i), s[i..])
  {
    var q := Quad(key, s, i);
    WholeQuadDecodes(key, s, i, "");
    assert q + "" == q && s[i..i + 3] + [] == s[i..];
    assert forall k :: 0 <= k < 4 ==> q[k] != '=';
  }

  lemma TwoLeft(q: string, left: seq<nat>)
    requires |q| == 4 && |left| == 2 && Decode(q) == Some(left)
    requires q[0] != '=' && q[1] != '=' && q[2] != '=' && q[3] == '='
    ensures EndsWith(q, left)
  {
    assert Missing(2) == 1;
  }

  lemma LastTwo(key: string, s: Codes, i: nat)
    requires GoodKey(key) && AllBytes(s) && i + 2 == |s|
    ensures EndsWith(Quad(key, s, i), s[i..])
  {
    var a, b := s[i], s[i + 1];
    assert CodeAt(s, i) == a && CodeAt(s, i + 1) == b && CodeAt(s, i + 2) == 0;
    Indices(a, b, 0);
    assert Quad(key, s, i) == Chars(key, a / 4, a % 4 * 16 + b / 16, b % 16 * 4, 64);
    TwoCodesDecode(key, a, b);
    TwoLeft(Quad(key, s, i), [a, b]);
    assert s[i..] == [a, b];
  }

  lemma LastOne(key: string, s: Codes, i: nat)
    requires GoodKey(key) && AllBytes(s) && i + 1 == |s|
    ensures EndsWith(Quad(key, s, i), s[i..])
  {
    Indices(s[i], 0, 0);
    OneCodeDecodes(key, s[i]);
    assert s[i..] == [s[i]];
  }

  lemma LastQuadDecodes(key: string, s: Codes, i: nat)
    requires GoodKey(key) && AllBytes(s) && i < |s| <= i + 3
    ensures EndsWith(Quad(key, s, i), s[i..])
  {
    if i + 3 == |s| {
      LastThree(key, s, i);
    } else if i + 2 == |s| {
      LastTwo(key, s, i);
    } else {
      LastOne(key, s, i);
    }
  }

  lemma CutAt(s: seq<nat>, i: nat)
    requires i + 3 <= |s|
    ensures s[i..] == s[i..i + 3] + s[i + 3..]
  {
  }

  lemma {:induction false} DecodesFrom(key: string, s: Codes, i: nat)
    requires GoodKey(key) && AllBytes(s) && i < |s|
    ensures Decode(Encoded(key, s, i)) == Some(s[i..])
    decreases |s| - i
  {
    if i + 3 < |s| {
      WholeQuadDecodes(key, s, i, Encoded(key, s, i + 3));
      DecodesFrom(key, s, i + 3);
      CutAt(s, i);
    } else {
      LastQuadDecodes(key, s, i);
    }
  }

  /** Decoding undoes encoding exactly for the non-empty strings of codes up to 255. */
  lemma RoundTrip(s: Codes)
    ensures Decode(Encoded(KEY_STR, s, 0)) == Some(s) <==> s != [] && AllBytes(s)
  {
    KeyIsGood();
    if s == [] {
      EmptyEncodes(KEY_STR);
    } else if AllBytes(s) {
      DecodesFrom(KEY_STR, s, 0);
      assert s[0..] == s;
    } else {
      DecodesToBytes(Encoded(KEY_STR, s, 0));
    }
  }

  /** The empty string is encoded as if it held one code 0. */
  lemma EmptyEncodes(key: string)
    requires GoodKey(key)
    ensures Encoded(key, [], 0) == Encoded(key, [0], 0) && Decode(Encoded(key, [], 0)) == Some([0])
  {
    assert Or(0, 0) == 0;
    DecodesFrom(key, [0], 0);
    assert [0][0..] == [0];
    assert Quad(key, [], 0) == Quad(key, [0], 0);
  }

  /** How many codes are missing from the last group of three. */
  function Missing(n: nat): nat { (3 - n % 3) % 3 }

  /** Four characters for every three codes begun, with one '=' for each code missing from the last three,
      at the end. */
  predicate Padded(encoded: string, n: nat) {
    && |encoded| == (n + 2) / 3 * 4
    && forall k :: 0 <= k < |encoded| ==> (encoded[k] == '=' <==> k >= |encoded| - Missing(n))
  }

  /** Three codes more are one group more, with as many missing from the last one. */
  lemma OneGroupMore(n: nat)
    ensures Missing(n + 3) == Missing(n) && (n + 3 + 2) / 3 * 4 == (n + 2) / 3 * 4 + 4
  {
  }

  /** A last round alone. */
  lemma LastPadded(quad: string, left: seq<nat>)
    requires 1 <= |left| <= 3 && EndsWith(quad, left)
    ensures Padded(quad, |left|)
  {
    assert (|left| + 2) / 3 == 1;
  }

  lemma QuadBefore(quad: string, rest: string, n: nat)
    requires |quad| == 4 && '=' !in quad && n > 3 && Padded(rest, n - 3)
    ensures Padded(quad + rest, n)
  {
    OneGroupMore(n - 3);
    var all := quad + rest;
    forall k | 0 <= k < |all| ensures all[k] == '=' <==> k >= |all| - Missing(n) {
      assert all[k] == if k < 4 then quad[k] else rest[k - 4];
    }
  }

  lemma {:induction false} LengthAndPadding(key: string, s: Codes, i: nat)
    requires GoodKey(key) && AllBytes(s) && i < |s|
    ensures Padded(Encoded(key, s, i), |s| - i)
    decreases |s| - i
  {
    if i + 3 >= |s| {
      LastQuadDecodes(key, s, i);
      LastPadded(Quad(key, s, i), s[i..]);
    } else {
      WholeQuadDecodes(key, s, i, "");
      LengthAndPadding(key, s, i + 3);
      QuadBefore(Quad(key, s, i), Encoded(key, s, i + 3), |s| - i);
    }
  }
}
