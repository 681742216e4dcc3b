/**
  The standard base64 encoding of RFC 4648 (section 4): the alphabet
  A-Z a-z 0-9 + /, with '=' padding of the final quantum.

  `Encode` is what base64.StdEncoding.EncodeToString produces; `Decode` is a
  strict decoder that accepts exactly the canonical encodings, so that the two
  are inverse to each other in both directions.
 */
module Base64 {
  import opened Wrappers

  type Byte = x: int | 0 <= x < 256

  /** An index into the 64-character alphabet. */
  type Sextet = x: int | 0 <= x < 64

  const Pad: char := '='

  /**
    The character that stands for the 6-bit value `i`, as in table 1 of
    RFC 4648: "A".."Z" for 0..25, "a".."z" for 26..51, "0".."9" for 52..61,
    then "+" and "/".
   */
  function IndexChar(i: Sextet): (c: char)
    ensures c != Pad
  {
    if i < 26 then ('A' as int + i) as char
    else if i < 52 then ('a' as int + (i - 26)) as char
    else if i < 62 then ('0' as int + (i - 52)) as char
    else if i == 62 then '+'
    else '/'
  }

  /** The 6-bit value of an alphabet character; None for any other character. */
  function CharIndex(c: char): (r: Option<Sextet>)
    ensures r.Some? ==> IndexChar(r.value) == c
  {
    if 'A' <= c <= 'Z' then Some(c as int - 'A' as int)
    else if 'a' <= c <= 'z' then Some(c as int - 'a' as int + 26)
    else if '0' <= c <= '9' then Some(c as int - '0' as int + 52)
    else if c == '+' then Some(62)
    else if c == '/' then Some(63)
    else None
  }

  lemma CharIndexInverse(i: Sextet)
    ensures CharIndex(IndexChar(i)) == Some(i)
  {
  }

  /** Three bytes as four characters (a full 24-bit group, no padding). */
  function Quantum(x: Byte, y: Byte, z: Byte): string
  {
    [IndexChar(x / 4), IndexChar(x % 4 * 16 + y / 16), IndexChar(y % 16 * 4 + z / 64), IndexChar(z % 64)]
  }

  /** The standard padded encoding of `b`. */
  function Encode(b: seq<Byte>): (r: string)
    ensures |r| == 4 * ((|b| + 2) / 3)
    decreases |b|
  {
    if |b| == 0 then []
    else if |b| == 1 then [IndexChar(b[0] / 4), IndexChar(b[0] % 4 * 16), Pad, Pad]
    else if |b| == 2 then [IndexChar(b[0] / 4), IndexChar(b[0] % 4 * 16 + b[1] / 16), IndexChar(b[1] % 16 * 4), Pad]
    else Quantum(b[0], b[1], b[2]) + Encode(b[3..])
  }

  /** The byte made of the six bits of `a` and the top two bits of `b`. */
  lemma JoinFirst(a: Sextet, b: Sextet)
    ensures var x := a * 4 + b / 16; 0 <= x < 256 && x / 4 == a && x % 4 == b / 16
  {
  }

  /** The byte made of the low four bits of `b` and the top four bits of `c`. */
  lemma JoinSecond(b: Sextet, c: Sextet)
    ensures var y := b % 16 * 16 + c / 4; 0 <= y < 256 && y / 16 == b % 16 && y % 16 == c / 4
  {
  }

  /** The byte made of the low two bits of `c` and the six bits of `d`. */
  lemma JoinThird(c: Sextet, d: Sextet)
    ensures var z := c % 4 * 64 + d; 0 <= z < 256 && z / 64 == c % 4 && z % 64 == d
  {
  }

  /** The three bytes of a full unpadded quantum, if all four characters are in the alphabet. */
  function DecodeQuantum(c0: char, c1: char, c2: char, c3: char): (r: Option<seq<Byte>>)
    ensures r.Some? ==> |r.value| == 3 && Quantum(r.value[0], r.value[1], r.value[2]) == [c0, c1, c2, c3]
  {
    var i0, i1, i2, i3 := CharIndex(c0), CharIndex(c1), CharIndex(c2), CharIndex(c3);
    if i0.Some? && i1.Some? && i2.Some? && i3.Some? then
      var a, b, c, d := i0.value, i1.value, i2.value, i3.value;
      JoinFirst(a, b);
      JoinSecond(b, c);
      JoinThird(c, d);
      var x: Byte, y: Byte, z: Byte := a * 4 + b / 16, b % 16 * 16 + c / 4, c % 4 * 64 + d;
      assert x % 4 * 16 + y / 16 == b;
      assert y % 16 * 4 + z / 64 == c;
      Some([x, y, z])
    else None
  }

  /**
    The bytes of the last quantum: three bytes, or one or two bytes followed by
    padding. The bits a padded quantum does not use must be zero.
   */
  function DecodeFinal(c0: char, c1: char, c2: char, c3: char): (r: Option<seq<Byte>>)
    ensures r.Some? ==> 1 <= |r.value| <= 3 && Encode(r.value) == [c0, c1, c2, c3]
  {
    var i0, i1, i2 := CharIndex(c0), CharIndex(c1), CharIndex(c2);
    if c2 == Pad && c3 == Pad then
      if i0.Some? && i1.Some? && i1.value % 16 == 0 then
        var a, b := i0.value, i1.value;
        JoinFirst(a, b);
        var x: Byte := a * 4 + b / 16;
        assert x % 4 * 16 == b;
        Some([x])
      else None
    else if c3 == Pad then
      if i0.Some? && i1.Some? && i2.Some? && i2.value % 4 == 0 then
        var a, b, c := i0.value, i1.value, i2.value;
        JoinFirst(a, b);
        JoinSecond(b, c);
        var x: Byte, y: Byte := a * 4 + b / 16, b % 16 * 16 + c / 4;
        assert x % 4 * 16 + y / 16 == b;
        assert y % 16 * 4 == c;
        Some([x, y])
      else None
    else
      var r := DecodeQuantum(c0, c1, c2, c3);
      if r.Some? then
        assert r.value[3..] == [];
        Some(r.value)
      else None
  }

  /**
    Strict decoding: every successful decoding is the one encoding of its
    result, so padding and unused bits are exactly as `Encode` writes them.
   */
  function Decode(s: string): (r: Option<seq<Byte>>)
    ensures r.Some? ==> Encode(r.value) == s
    decreases |s|
  {
    if |s| == 0 then Some([])
    else if |s| < 4 then None
    else if |s| == 4 then DecodeFinal(s[0], s[1], s[2], s[3])
    else
      match (DecodeQuantum(s[0], s[1], s[2], s[3]), Decode(s[4..]))
      case (Some(q), Some(rest)) =>
        var b := q + rest;
        assert b[3..] == rest;
        assert s == s[..4] + s[4..];
        Some(b)
      case _ => None
  }

  lemma Pack16(hi: int, lo: int)
    requires 0 <= hi && 0 <= lo < 16
    ensures (hi * 16 + lo) / 16 == hi && (hi * 16 + lo) % 16 == lo
  {
  }

  lemma Pack4(hi: int, lo: int)
    requires 0 <= hi && 0 <= lo < 4
    ensures (hi * 4 + lo) / 4 == hi && (hi * 4 + lo) % 4 == lo
  {
  }

  lemma QuantumInverse(x: Byte, y: Byte, z: Byte)
    ensures var q := Quantum(x, y, z); DecodeQuantum(q[0], q[1], q[2], q[3]) == Some([x, y, z])
  {
    var s0, s1, s2, s3 := x / 4, x % 4 * 16 + y / 16, y % 16 * 4 + z / 64, z % 64;
    CharIndexInverse(s0);
    CharIndexInverse(s1);
    CharIndexInverse(s2);
    CharIndexInverse(s3);
    Pack16(x % 4, y / 16);
    Pack4(y % 16, z / 64);
    assert s0 * 4 + s1 / 16 == x;
    assert s1 % 16 * 16 + s2 / 4 == y;
    assert s2 % 4 * 64 + s3 == z;
  }

  /** One byte encodes to two characters and two pads, and decodes back. */
  lemma DecodeEncodeOne(x: Byte)
    ensures Decode(Encode([x])) == Some([x])
  {
    var s0, s1 := x / 4, x % 4 * 16;
    CharIndexInverse(s0);
    CharIndexInverse(s1);
    var e := Encode([x]);
    assert e == [IndexChar(s0), IndexChar(s1), Pad, Pad];
    assert s0 * 4 + s1 / 16 == x;
    assert DecodeFinal(e[0], e[1], e[2], e[3]) == Some([x]);
  }

  /** Two bytes encode to three characters and one pad, and decode back. */
  lemma DecodeEncodeTwo(x: Byte, y: Byte)
    ensures Decode(Encode([x, y])) == Some([x, y])
  {
    var s0, s1, s2 := x / 4, x % 4 * 16 + y / 16, y % 16 * 4;
    CharIndexInverse(s0);
    CharIndexInverse(s1);
    CharIndexInverse(s2);
    var e := Encode([x, y]);
    assert e == [IndexChar(s0), IndexChar(s1), IndexChar(s2), Pad];
    assert s2 % 4 == 0;
    assert s0 * 4 + s1 / 16 == x;
    assert s1 % 16 * 16 + s2 / 4 == y;
    assert DecodeFinal(e[0], e[1], e[2], e[3]) == Some([x, y]);
  }

  /** Three bytes encode to one full quantum, and decode back. */
  lemma DecodeEncodeThree(x: Byte, y: Byte, z: Byte)
    ensures Decode(Encode([x, y, z])) == Some([x, y, z])
  {
    var q := Quantum(x, y, z);
    QuantumInverse(x, y, z);
    assert [x, y, z][3..] == [];
    assert Encode([x, y, z]) == q;
    assert DecodeFinal(q[0], q[1], q[2], q[3]) == Some([x, y, z]);
  }

  /** A full quantum in front of a non-empty decodable string decodes to its three bytes in front. */
  lemma DecodeQuantumThen(q: string, rest: string)
    requires |q| == 4 && |rest| > 0
    requires DecodeQuantum(q[0], q[1], q[2], q[3]).Some? && Decode(rest).Some?
    ensures Decode(q + rest) == Some(DecodeQuantum(q[0], q[1], q[2], q[3]).value + Decode(rest).value)
  {
    var s := q + rest;
    assert s[..4] == q && s[4..] == rest;
  }

  lemma SplitThree(b: seq<Byte>)
    requires |b| >= 3
    ensures [b[0], b[1], b[2]] + b[3..] == b
  {
  }

  /** The inductive step: a leading full quantum decodes back once the rest does. */
  lemma DecodeEncodeStep(b: seq<Byte>)
    requires |b| > 3 && Decode(Encode(b[3..])) == Some(b[3..])
    ensures Decode(Encode(b)) == Some(b)
  {
    var q, e := Quantum(b[0], b[1], b[2]), Encode(b[3..]);
    assert Encode(b) == q + e;
    QuantumInverse(b[0], b[1], b[2]);
    DecodeQuantumThen(q, e);
    SplitThree(b);
  }

  /** Decoding an encoding gives back exactly the bytes that were encoded. */
  lemma {:induction false} DecodeEncode(b: seq<Byte>)
    ensures Decode(Encode(b)) == Some(b)
    decreases |b|
  {
    if |b| == 1 {
      assert b == [b[0]];
      DecodeEncodeOne(b[0]);
    } else if |b| == 2 {
      assert b == [b[0], b[1]];
      DecodeEncodeTwo(b[0], b[1]);
    } else if |b| == 3 {
      assert b == [b[0], b[1], b[2]];
      DecodeEncodeThree(b[0], b[1], b[2]);
    } else if |b| > 3 {
      DecodeEncode(b[3..]);
      DecodeEncodeStep(b);
    }
  }

  /** Decoding succeeds exactly on the strings that are encodings. */
  lemma DecodeSucceedsIff(s: string)
    ensures Decode(s).Some? <==> exists b: seq<Byte> :: Encode(b) == s
  {
    if exists b: seq<Byte> :: Encode(b) == s {
      var b: seq<Byte> :| Encode(b) == s;
      DecodeEncode(b);
    }
  }

  /** The test vectors of RFC 4648 section 10 ("", "f", "fo", "foo", "foob", "fooba", "foobar"). */
  lemma EncodeTestVectors()
    ensures Encode([]) == ""
    ensures Encode([102]) == "Zg=="
    ensures Encode([102, 111]) == "Zm8="
    ensures Encode([102, 111, 111]) == "Zm9v"
    ensures Encode([102, 111, 111, 98]) == "Zm9vYg=="
    ensures Encode([102, 111, 111, 98, 97]) == "Zm9vYmE="
    ensures Encode([102, 111, 111, 98, 97, 114]) == "Zm9vYmFy"
  {
  }
}
