/**
 * Base64 as defined in section 4 of RFC 4648: every 3 input bytes become
 * 4 characters of the 64-character alphabet; a final group of 1 or 2 bytes
 * becomes 2 or 3 characters followed by "==" or "=". This is the encoding
 * Node's `Buffer.toString('base64')` produces.
 */
module Base64 {
  import opened Wrappers

  type Byte = b: int | 0 <= b < 256

  /** A 6-bit group, the index of one alphabet character. */
  type Sextet = x: int | 0 <= x < 64

  const Pad: char := '='

  predicate IsAlphabetChar(c: char) {
    'A' <= c <= 'Z' || 'a' <= c <= 'z' || '0' <= c <= '9' || c == '+' || c == '/'
  }

  /** Decoding table: the value of an alphabet character, None for any other. */
  function ValueOf(c: char): (r: Option<Sextet>)
    ensures r.Some? <==> IsAlphabetChar(c)
  {
    if 'A' <= c <= 'Z' then Some(c as int - 'A' as int)
    else if 'a' <= c <= 'z' then Some(c as int - 'a' as int + 26)
    else if '0' <= c <= '9' then Some(c as int - '0' as int + 52)
    else if c == '+' then Some(62)
    else if c == '/' then Some(63)
    else None
  }

  /** Encoding table (Table 1 of RFC 4648): the character for a 6-bit value. */
  function CharOf(x: Sextet): (c: char)
    ensures IsAlphabetChar(c)
    ensures ValueOf(c) == Some(x)
    ensures c == '+' <==> x == 62
    ensures c == '/' <==> x == 63
  {
    if x < 26 then ('A' as int + x) as char
    else if x < 52 then ('a' as int + (x - 26)) as char
    else if x < 62 then ('0' as int + (x - 52)) as char
    else if x == 62 then '+'
    else '/'
  }

  /** Three bytes (24 bits) as four characters, most significant bits first. */
  function EncodeGroup(a: Byte, b: Byte, c: Byte): string {
    [CharOf(a / 4), CharOf(a % 4 * 16 + b / 16), CharOf(b % 16 * 4 + c / 64), CharOf(c % 64)]
  }

  /** A final single byte: two characters, the second padded with zero bits, then "==". */
  function EncodeFinal1(a: Byte): string {
    [CharOf(a / 4), CharOf(a % 4 * 16), Pad, Pad]
  }

  /** A final pair of bytes: three characters, the third padded with zero bits, then "=". */
  function EncodeFinal2(a: Byte, b: Byte): string {
    [CharOf(a / 4), CharOf(a % 4 * 16 + b / 16), CharOf(b % 16 * 4), Pad]
  }

  ghost predicate IsEncodingChar(c: char) {
    IsAlphabetChar(c) || c == Pad
  }

  function Encode(bytes: seq<Byte>): (s: string)
    ensures |s| == 4 * ((|bytes| + 2) / 3)
    ensures forall i :: 0 <= i < |s| ==> IsEncodingChar(s[i])
    decreases |bytes|
  {
    if |bytes| == 0 then []
    else if |bytes| == 1 then EncodeFinal1(bytes[0])
    else if |bytes| == 2 then EncodeFinal2(bytes[0], bytes[1])
    else EncodeGroup(bytes[0], bytes[1], bytes[2]) + Encode(bytes[3..])
  }

  /** The byte made of the 6 bits of `w` and the high 2 bits of `x`. */
  function FirstByte(w: Sextet, x: Sextet): Byte {
    w as int * 4 + x as int / 16
  }

  /** The byte made of the low 4 bits of `x` and the high 4 bits of `y`. */
  function SecondByte(x: Sextet, y: Sextet): Byte {
    x as int % 16 * 16 + y as int / 4
  }

  /** The byte made of the low 2 bits of `y` and the 6 bits of `z`. */
  function ThirdByte(y: Sextet, z: Sextet): Byte {
    y as int % 4 * 64 + z as int
  }

  /** Four alphabet characters back to three bytes. */
  function DecodeGroup(t: string): Option<seq<Byte>>
    requires |t| == 4
  {
    match (ValueOf(t[0]), ValueOf(t[1]), ValueOf(t[2]), ValueOf(t[3]))
    case (Some(w), Some(x), Some(y), Some(z)) =>
      Some([FirstByte(w, x), SecondByte(x, y), ThirdByte(y, z)])
    case _ => None
  }

  /** The last group of an encoding, which alone may carry padding. */
  function DecodeLastGroup(t: string): Option<seq<Byte>>
    requires |t| == 4
  {
    if t[2] == Pad && t[3] == Pad then
      match (ValueOf(t[0]), ValueOf(t[1]))
      case (Some(w), Some(x)) => Some([FirstByte(w, x)])
      case _ => None
    else if t[3] == Pad then
      match (ValueOf(t[0]), ValueOf(t[1]), ValueOf(t[2]))
      case (Some(w), Some(x), Some(y)) => Some([FirstByte(w, x), SecondByte(x, y)])
      case _ => None
    else DecodeGroup(t)
  }

  function Decode(t: string): Option<seq<Byte>>
    decreases |t|
  {
    if |t| == 0 then Some([])
    else if |t| < 4 then None
    else if |t| == 4 then DecodeLastGroup(t)
    else
      match (DecodeGroup(t[..4]), Decode(t[4..]))
      case (Some(head), Some(rest)) => Some(head + rest)
      case _ => None
  }

  lemma GroupRoundTrip(a: Byte, b: Byte, c: Byte)
    ensures DecodeGroup(EncodeGroup(a, b, c)) == Some([a, b, c])
    ensures DecodeLastGroup(EncodeGroup(a, b, c)) == Some([a, b, c])
  {
    var x := a % 4 * 16 + b / 16;
    var y := b % 16 * 4 + c / 64;
    assert x / 16 == a % 4 && x % 16 == b / 16;
    assert y / 4 == b % 16 && y % 4 == c / 64;
  }

  lemma Final1RoundTrip(a: Byte)
    ensures DecodeLastGroup(EncodeFinal1(a)) == Some([a])
  {
  }

  lemma Final2RoundTrip(a: Byte, b: Byte)
    ensures DecodeLastGroup(EncodeFinal2(a, b)) == Some([a, b])
  {
    var x := a % 4 * 16 + b / 16;
    var y := b % 16 * 4;
    assert x / 16 == a % 4 && x % 16 == b / 16;
    assert y / 4 == b % 16;
    var t := EncodeFinal2(a, b);
    assert ValueOf(t[0]) == Some(a / 4) && ValueOf(t[1]) == Some(x) && ValueOf(t[2]) == Some(y);
    assert FirstByte(a / 4, x) == a;
    assert SecondByte(x, y) == b;
  }

  /** Decoding inverts encoding, for every byte sequence. */
  lemma {:induction false} DecodeEncode(bytes: seq<Byte>)
    ensures Decode(Encode(bytes)) == Some(bytes)
    decreases |bytes|
  {
    if |bytes| == 1 {
      Final1RoundTrip(bytes[0]);
      assert bytes == [bytes[0]];
    } else if |bytes| == 2 {
      Final2RoundTrip(bytes[0], bytes[1]);
      assert bytes == [bytes[0], bytes[1]];
    } else if |bytes| >= 3 {
      var head := EncodeGroup(bytes[0], bytes[1], bytes[2]);
      var rest := Encode(bytes[3..]);
      GroupRoundTrip(bytes[0], bytes[1], bytes[2]);
      if |bytes| == 3 {
        assert rest == [];
        assert Encode(bytes) == head;
        assert bytes == [bytes[0], bytes[1], bytes[2]];
      } else {
        DecodeEncode(bytes[3..]);
        var t := head + rest;
        assert t[..4] == head && t[4..] == rest;
        assert bytes == [bytes[0], bytes[1], bytes[2]] + bytes[3..];
      }
    }
  }
}
