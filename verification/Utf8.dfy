/** UTF-8 as section 3 of RFC 3629 defines it: shortest forms only, no surrogates. */
module Utf8 {
  import opened Prelude

  type Byte = b: int | 0 <= b < 256

  /** A Unicode scalar value. */
  type Scalar = c: int | 0 <= c < 0x110000 && !(0xD800 <= c < 0xE000) witness 0

  type Text = seq<Scalar>

  function EncodeScalar(c: Scalar): (bs: seq<Byte>)
    ensures 1 <= |bs| <= 4
  {
    if c < 0x80 then [c]
    else if c < 0x800 then [0xC0 + c / 64, 0x80 + c % 64]
    else if c < 0x10000 then [0xE0 + c / 4096, 0x80 + c / 64 % 64, 0x80 + c % 64]
    else [0xF0 + c / 262144, 0x80 + c / 4096 % 64, 0x80 + c / 64 % 64, 0x80 + c % 64]
  }

  function Encode(text: Text): seq<Byte> {
    if text == [] then [] else EncodeScalar(text[0]) + Encode(text[1..])
  }

  predicate IsTail(b: int) { 0x80 <= b < 0xC0 }

  /** How many bytes a sequence with this lead byte has; none for bytes that cannot lead. */
  function Length(lead: Byte): nat {
    if lead < 0x80 then 1
    else if 0xC2 <= lead < 0xE0 then 2
    else if 0xE0 <= lead < 0xF0 then 3
    else if 0xF0 <= lead < 0xF5 then 4
    else 0
  }

  /** The number spelled by a lead byte and its tail bytes, before the checks on its range. */
  function Assembled(n: nat, b0: int, b1: int, b2: int, b3: int): int {
    if n == 1 then b0
    else if n == 2 then (b0 - 0xC0) * 64 + (b1 - 0x80)
    else if n == 3 then (b0 - 0xE0) * 4096 + (b1 - 0x80) * 64 + (b2 - 0x80)
    else (b0 - 0xF0) * 262144 + (b1 - 0x80) * 4096 + (b2 - 0x80) * 64 + (b3 - 0x80)
  }

  /** Not over-long, not a surrogate, not beyond the last plane. */
  predicate Acceptable(n: nat, c: int) {
    && 0 <= c < 0x110000 && !(0xD800 <= c < 0xE000)
    && (n == 3 ==> 0x800 <= c) && (n == 4 ==> 0x10000 <= c)
  }

  /** The byte at position `k`, or a harmless tail byte past the end of a shorter sequence. */
  function TailAt(bs: seq<Byte>, k: nat, n: nat): int
    requires n <= |bs|
  {
    if k < n then bs[k] else 0x80
  }

  /** The scalar at the head of the input, if a well-formed sequence stands there. */
  function DecodeScalar(bs: seq<Byte>): (r: Option<Scalar>)
    requires bs != []
    ensures r.Some? ==> 0 < Length(bs[0]) <= |bs|
  {
    var n := Length(bs[0]);
    if n == 0 || |bs| < n then None
    else
      var b1, b2, b3 := TailAt(bs, 1, n), TailAt(bs, 2, n), TailAt(bs, 3, n);
      var c := Assembled(n, bs[0], b1, b2, b3);
      if IsTail(b1) && IsTail(b2) && IsTail(b3) && Acceptable(n, c) then Some(c) else None
  }

  function Decode(bs: seq<Byte>): Option<Text>
    decreases |bs|
  {
    if bs == [] then Some([])
    else match DecodeScalar(bs)
      case None => None
      case Some(c) =>
        match Decode(bs[Length(bs[0])..])
        case None => None
        case Some(rest) => Some([c] + rest)
  }

  /** Cutting a number into six-bit pieces loses nothing. */
  lemma Pieces(c: int)
    requires 0 <= c < 0x200000
    ensures c / 64 * 64 + c % 64 == c
    ensures c / 4096 * 4096 + c / 64 % 64 * 64 + c % 64 == c
    ensures c / 262144 * 262144 + c / 4096 % 64 * 4096 + c / 64 % 64 * 64 + c % 64 == c
  {
    var q := c / 64;
    var r := q / 64;
    assert c / 4096 == r && c / 262144 == r / 64;
    assert q == r * 64 + q % 64;
  }

  lemma ScalarRoundTrip(c: Scalar, rest: seq<Byte>)
    ensures DecodeScalar(EncodeScalar(c) + rest) == Some(c)
    ensures Length((EncodeScalar(c) + rest)[0]) == |EncodeScalar(c)|
  {
    Pieces(c);
    var e := EncodeScalar(c);
    var bs := e + rest;
    var n := |e|;
    assert bs[0] == e[0] && Length(e[0]) == n;
    assert TailAt(bs, 1, n) == TailAt(e, 1, n);
    assert TailAt(bs, 2, n) == TailAt(e, 2, n);
    assert TailAt(bs, 3, n) == TailAt(e, 3, n);
  }

  /** Decoding undoes encoding, for every text. */
  lemma {:induction false} DecodeEncode(text: Text)
    ensures Decode(Encode(text)) == Some(text)
  {
    if text != [] {
      var head := EncodeScalar(text[0]);
      var rest := Encode(text[1..]);
      ScalarRoundTrip(text[0], rest);
      DecodeEncode(text[1..]);
      assert (head + rest)[|head|..] == rest;
      assert text == [text[0]] + text[1..];
    }
  }

  /** Putting six-bit pieces together and cutting them again gives the same pieces. */
  lemma PiecesBack(a: int, b: int, c: int, d: int)
    requires 0 <= a && 0 <= b < 64 && 0 <= c < 64 && 0 <= d < 64
    ensures var n := a * 262144 + b * 4096 + c * 64 + d;
            n / 262144 == a && n / 4096 % 64 == b && n / 64 % 64 == c && n % 64 == d
  {
    var n := a * 262144 + b * 4096 + c * 64 + d;
    assert n / 64 == a * 4096 + b * 64 + c && n % 64 == d;
    assert n / 4096 == a * 64 + b;
  }

  lemma ScalarIsCanonical(bs: seq<Byte>)
    requires bs != [] && DecodeScalar(bs).Some?
    ensures bs == EncodeScalar(DecodeScalar(bs).value) + bs[Length(bs[0])..]
  {
    var n := Length(bs[0]);
    var c := DecodeScalar(bs).value;
    var b1, b2, b3 := TailAt(bs, 1, n), TailAt(bs, 2, n), TailAt(bs, 3, n);
    match n {
      case 1 =>
      case 2 => PiecesBack(0, 0, bs[0] - 0xC0, b1 - 0x80);
      case 3 => PiecesBack(0, bs[0] - 0xE0, b1 - 0x80, b2 - 0x80);
      case _ => PiecesBack(bs[0] - 0xF0, b1 - 0x80, b2 - 0x80, b3 - 0x80);
    }
    assert EncodeScalar(c) == bs[..n];
  }

  /** Only canonical encodings decode, so a byte string spells at most one text. */
  lemma {:induction false} EncodeDecode(bs: seq<Byte>)
    requires Decode(bs).Some?
    ensures Encode(Decode(bs).value) == bs
    decreases |bs|
  {
    if bs != [] {
      ScalarIsCanonical(bs);
      EncodeDecode(bs[Length(bs[0])..]);
      var text := Decode(bs).value;
      assert text[1..] == Decode(bs[Length(bs[0])..]).value;
    }
  }
}
