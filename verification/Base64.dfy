/** Base 64 with padding, section 4 of RFC 4648. */
module Base64 {
  import opened Prelude
  import opened Utf8

  type Digit = d: int | 0 <= d < 64

  const PAD: Scalar := '=' as int

  function ToChar(d: Digit): Scalar {
    if d < 26 then 'A' as int + d
    else if d < 52 then 'a' as int + (d - 26)
    else if d < 62 then '0' as int + (d - 52)
    else if d == 62 then '+' as int
    else '/' as int
  }

  function FromChar(c: Scalar): Option<Digit> {
    if 'A' as int <= c <= 'Z' as int then Some(c - 'A' as int)
    else if 'a' as int <= c <= 'z' as int then Some(c - 'a' as int + 26)
    else if '0' as int <= c <= '9' as int then Some(c - '0' as int + 52)
    else if c == '+' as int then Some(62)
    else if c == '/' as int then Some(63)
    else None
  }

  lemma CharRoundTrip(d: Digit)
    ensures FromChar(ToChar(d)) == Some(d) && ToChar(d) != PAD
  {}

  /** The four characters of one group of three bytes, or of a shorter last group. */
  function EncodeGroup(bs: seq<Byte>): (s: Text)
    requires 1 <= |bs| <= 3
    ensures |s| == 4
  {
    var b0 := bs[0];
    var b1 := if |bs| > 1 then bs[1] else 0;
    var b2 := if |bs| > 2 then bs[2] else 0;
    [ToChar(b0 / 4), ToChar(b0 % 4 * 16 + b1 / 16),
     if |bs| > 1 then ToChar(b1 % 16 * 4 + b2 / 64) else PAD,
     if |bs| > 2 then ToChar(b2 % 64) else PAD]
  }

  // Table 1 of RFC 4648.
  const CAPITALS: string := "ABCDEFGHIJKLMNOPQRSTUVWXYZ"
  const SMALLS: string := "abcdefghijklmnopqrstuvwxyz"
  const NUMERALS: string := "0123456789"
  const ALPHABET: string := CAPITALS + SMALLS + NUMERALS + "+/"

  /** The characters of the alphabet, in order, are the digits, and no other character is one. */
  lemma DigitsAreTheAlphabet(c: Scalar, d: Digit)
    ensures |ALPHABET| == 64 && ToChar(d) == ALPHABET[d] as int
    ensures FromChar(c) == Some(d) <==> c == ALPHABET[d] as int
    ensures FromChar(c).None? <==> forall i: Digit :: c != ALPHABET[i] as int
  {
    AlphabetIs(d);
    if FromChar(c).Some? {
      assert ToChar(FromChar(c).value) == c;
      AlphabetIs(FromChar(c).value);
    }
    forall i: Digit | c == ALPHABET[i] as int ensures FromChar(c) == Some(i) { AlphabetIs(i); }
  }

  lemma AlphabetIs(d: Digit)
    ensures |ALPHABET| == 64 && ToChar(d) == ALPHABET[d] as int && FromChar(ToChar(d)) == Some(d)
  {
    if d < 26 {
      assert ALPHABET[d] == CAPITALS[d] && CAPITALS[d] as int == 'A' as int + d;
    } else if d < 52 {
      assert ALPHABET[d] == SMALLS[d - 26] && SMALLS[d - 26] as int == 'a' as int + (d - 26);
    } else if d < 62 {
      assert ALPHABET[d] == NUMERALS[d - 52] && NUMERALS[d - 52] as int == '0' as int + (d - 52);
    } else {
      assert ALPHABET[d] == "+/"[d - 62];
    }
  }

  // Three bytes as one number of 24 bits, cut into digits of six bits from the top.
  function Cut(b0: Byte, b1: Byte, b2: Byte): (Digit, Digit, Digit, Digit) {
    var n: int := b0 as int * 65536 + b1 as int * 256 + b2 as int;
    (n / 262144 % 64, n / 4096 % 64, n / 64 % 64, n % 64)
  }

  lemma CutNumber(b0: int, b1: int, b2: int)
    requires 0 <= b0 < 256 && 0 <= b1 < 256 && 0 <= b2 < 256
    ensures var n := b0 * 65536 + b1 * 256 + b2;
      && n / 262144 % 64 == b0 / 4 && n / 4096 % 64 == b0 % 4 * 16 + b1 / 16
      && n / 64 % 64 == b1 % 16 * 4 + b2 / 64 && n % 64 == b2 % 64
  {
    var n := b0 * 65536 + b1 * 256 + b2;
    assert n / 64 == b0 * 1024 + b1 * 4 + b2 / 64;
    assert n / 4096 == b0 * 16 + b1 / 16;
    assert n / 262144 == b0 / 4;
  }

  lemma CutIs(b0: Byte, b1: Byte, b2: Byte)
    ensures Cut(b0, b1, b2) == (b0 / 4, b0 % 4 * 16 + b1 / 16, b1 % 16 * 4 + b2 / 64, b2 % 64)
  {
    CutNumber(b0, b1, b2);
  }

  // The alphabet's character for a digit.
  function Letter(d: Digit): Scalar {
    AlphabetIs(d);
    ALPHABET[d] as int
  }

  /** A group is its bytes as one number of 24 bits, missing ones as zeros, cut into four digits; those beyond the last
      byte are written as equals signs. */
  lemma GroupIs(bs: seq<Byte>)
    requires 1 <= |bs| <= 3
    ensures var d := Cut(bs[0], if |bs| > 1 then bs[1] else 0, if |bs| > 2 then bs[2] else 0);
            EncodeGroup(bs) == [Letter(d.0), Letter(d.1), if |bs| > 1 then Letter(d.2) else '=' as int,
                                if |bs| > 2 then Letter(d.3) else '=' as int]
  {
    hide ToChar, Letter, Cut;
    var b1, b2 := if |bs| > 1 then bs[1] else 0, if |bs| > 2 then bs[2] else 0;
    CutIs(bs[0], b1, b2);
    var d := Cut(bs[0], b1, b2);
    LetterIs(d.0);
    LetterIs(d.1);
    LetterIs(d.2);
    LetterIs(d.3);
  }

  lemma LetterIs(d: Digit)
    ensures Letter(d) == ToChar(d)
  {
    AlphabetIs(d);
  }

  function Encode(bs: seq<Byte>): (s: Text)
    ensures |s| == (|bs| + 2) / 3 * 4
  {
    if bs == [] then [] else if |bs| <= 3 then EncodeGroup(bs) else EncodeGroup(bs[..3]) + Encode(bs[3..])
  }

  /** The bytes that four six-bit digits spell. */
  function Join(a: int, b: int, c: int, d: int): (bs: seq<Byte>)
    requires 0 <= a < 64 && 0 <= b < 64 && 0 <= c < 64 && 0 <= d < 64
    ensures |bs| == 3
  {
    [a * 4 + b / 16, b % 16 * 16 + c / 4, c % 4 * 64 + d]
  }

  /** Cutting three bytes into four digits and joining them again loses nothing. */
  lemma JoinCut(b0: int, b1: int, b2: int)
    requires 0 <= b0 < 256 && 0 <= b1 < 256 && 0 <= b2 < 256
    ensures Join(b0 / 4, b0 % 4 * 16 + b1 / 16, b1 % 16 * 4 + b2 / 64, b2 % 64) == [b0, b1, b2]
  {}

  /** Padding is allowed only in the last group. Spare low bits are dropped without a check. */
  function DecodeGroup(s: Text, last: bool): (r: Option<seq<Byte>>)
    requires |s| == 4
    ensures r.Some? ==> 1 <= |r.value| <= 3 && (!last ==> |r.value| == 3)
  {
    var a, b, c, d := FromChar(s[0]), FromChar(s[1]), FromChar(s[2]), FromChar(s[3]);
    if a.None? || b.None? then None
    else if c.Some? && d.Some? then Some(Join(a.value, b.value, c.value, d.value))
    else if last && c.Some? && s[3] == PAD then Some(Join(a.value, b.value, c.value, 0)[..2])
    else if last && s[2] == PAD && s[3] == PAD then Some(Join(a.value, b.value, 0, 0)[..1])
    else None
  }

  function Decode(s: Text): Option<seq<Byte>> {
    if s == [] then Some([])
    else if |s| < 4 then None
    else match DecodeGroup(s[..4], |s| == 4)
      case None => None
      case Some(bs) =>
        match Decode(s[4..])
        case None => None
        case Some(rest) => Some(bs + rest)
  }

  lemma GroupRoundTrip(bs: seq<Byte>, last: bool)
    requires 1 <= |bs| <= 3 && (last || |bs| == 3)
    ensures DecodeGroup(EncodeGroup(bs), last) == Some(bs)
  {
    var b0 := bs[0];
    var b1 := if |bs| > 1 then bs[1] else 0;
    var b2 := if |bs| > 2 then bs[2] else 0;
    CharRoundTrip(b0 / 4);
    CharRoundTrip(b0 % 4 * 16 + b1 / 16);
    CharRoundTrip(b1 % 16 * 4 + b2 / 64);
    CharRoundTrip(b2 % 64);
    JoinCut(b0, b1, b2);
    assert FromChar(PAD).None?;
    hide ToChar, FromChar;
    var joined := Join(b0 / 4, b0 % 4 * 16 + b1 / 16, b1 % 16 * 4 + b2 / 64, b2 % 64);
    assert joined == [b0, b1, b2];
    assert bs == joined[..|bs|];
    if |bs| == 1 {
      assert joined == Join(b0 / 4, b0 % 4 * 16, 0, 0);
    } else if |bs| == 2 {
      assert joined == Join(b0 / 4, b0 % 4 * 16 + b1 / 16, b1 % 16 * 4, 0);
    } else {
      assert joined[..3] == joined;
    }
  }

  /** Decoding undoes encoding, in all three padding cases. */
  lemma {:induction false} DecodeEncode(bs: seq<Byte>)
    ensures Decode(Encode(bs)) == Some(bs)
    decreases |bs|
  {
    if bs == [] {
    } else if |bs| <= 3 {
      GroupRoundTrip(bs, true);
      var s := Encode(bs);
      assert s[..4] == s && s[4..] == [];
      assert bs + [] == bs;
    } else {
      var head := EncodeGroup(bs[..3]);
      var rest := Encode(bs[3..]);
      GroupRoundTrip(bs[..3], false);
      DecodeEncode(bs[3..]);
      assert (head + rest)[..4] == head && (head + rest)[4..] == rest;
      assert bs[..3] + bs[3..] == bs;
    }
  }

  predicate InAlphabet(c: Scalar) { FromChar(c).Some? || c == PAD }

  /** A text that decodes has a length divisible by four and only alphabet characters. */
  lemma {:induction false} DecodableShape(s: Text)
    requires Decode(s).Some?
    ensures |s| % 4 == 0
    ensures forall k :: 0 <= k < |s| ==> InAlphabet(s[k])
  {
    hide DecodeGroup, InAlphabet;
    if s != [] {
      DecodableShape(s[4..]);
      GroupShape(s[..4], |s| == 4);
      forall k | 0 <= k < |s| ensures InAlphabet(s[k]) {
        if k < 4 { assert s[k] == s[..4][k]; } else { assert s[k] == s[4..][k - 4]; }
      }
    }
  }

  lemma GroupShape(s: Text, last: bool)
    requires |s| == 4 && DecodeGroup(s, last).Some?
    ensures forall k :: 0 <= k < 4 ==> InAlphabet(s[k])
  {
    assert InAlphabet(s[0]) && InAlphabet(s[1]) && InAlphabet(s[2]) && InAlphabet(s[3]);
  }
}
