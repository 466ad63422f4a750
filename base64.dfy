/**
 * Base64 as section 4 of RFC 4648 defines it and Python's `base64.b64encode`
 * produces it: every three bytes become four characters of the 64-letter
 * alphabet, and a final group of one or two bytes is padded with '='. The
 * decoder reads back exactly the strings of that shape.
 */
module Base64 {
  import opened Options
  import Utf8

  type Byte = Utf8.Byte

  /** The character for the 6-bit value `i` (Table 1 of RFC 4648). */
  function Alphabet(i: int): char
    requires 0 <= i < 64
  {
    if i < 26 then ('A' as int + i) as char
    else if i < 52 then ('a' as int + (i - 26)) as char
    else if i < 62 then ('0' as int + (i - 52)) as char
    else if i == 62 then '+'
    else '/'
  }

  /** The 6-bit value a character stands for, or None when it is not in the alphabet. */
  function Sextet(c: char): (r: Option<int>)
    ensures r.Some? ==> 0 <= r.value < 64
  {
    if 'A' <= c <= 'Z' then Some(c as int - 'A' as int)
    else if 'a' <= c <= 'z' then Some(c as int - 'a' as int + 26)
    else if '0' <= c <= '9' then Some(c as int - '0' as int + 52)
    else if c == '+' then Some(62)
    else if c == '/' then Some(63)
    else None
  }

  /** Reading a letter of the alphabet gives back its value. */
  lemma SextetAlphabet(i: int)
    requires 0 <= i < 64
    ensures Sextet(Alphabet(i)) == Some(i)
  {
  }

  /** Every character that has a value is the alphabet's letter for it: the alphabet has no two spellings. */
  lemma AlphabetSextet(c: char)
    requires Sextet(c).Some?
    ensures Alphabet(Sextet(c).value) == c
  {
  }

  /** Three bytes as four characters: the 24 bits cut into four 6-bit values. */
  function EncodeGroup(b0: Byte, b1: Byte, b2: Byte): (s: string)
    ensures |s| == 4
  {
    [Alphabet(b0 / 4), Alphabet((b0 % 4) * 16 + b1 / 16), Alphabet((b1 % 16) * 4 + b2 / 64), Alphabet(b2 % 64)]
  }

  /** A last group of one byte: two letters and "==". */
  function EncodeOne(b0: Byte): (s: string)
    ensures |s| == 4
  {
    [Alphabet(b0 / 4), Alphabet((b0 % 4) * 16), '=', '=']
  }

  /** A last group of two bytes: three letters and "=". */
  function EncodeTwo(b0: Byte, b1: Byte): (s: string)
    ensures |s| == 4
  {
    [Alphabet(b0 / 4), Alphabet((b0 % 4) * 16 + b1 / 16), Alphabet((b1 % 16) * 4), '=']
  }

  /** `base64.b64encode(bs)`, as text. */
  function Encode(bs: seq<Byte>): (s: string)
    ensures |s| == (|bs| + 2) / 3 * 4
  {
    if |bs| == 0 then ""
    else if |bs| == 1 then EncodeOne(bs[0])
    else if |bs| == 2 then EncodeTwo(bs[0], bs[1])
    else EncodeGroup(bs[0], bs[1], bs[2]) + Encode(bs[3..])
  }

  /** Four letters without padding as three bytes. */
  function DecodeGroup(q: string): Option<seq<Byte>>
    requires |q| == 4
  {
    match (Sextet(q[0]), Sextet(q[1]), Sextet(q[2]), Sextet(q[3]))
    case (Some(a), Some(b), Some(c), Some(d)) =>
      Some([a * 4 + b / 16, (b % 16) * 16 + c / 4, (c % 4) * 64 + d])
    case _ => None
  }

  /** The last group, which may end in "==" (one byte) or "=" (two bytes). Bits below the last byte are ignored. */
  function DecodeLast(q: string): Option<seq<Byte>>
    requires |q| == 4
  {
    if q[2] == '=' && q[3] == '=' then
      match (Sextet(q[0]), Sextet(q[1]))
      case (Some(a), Some(b)) => Some([a * 4 + b / 16])
      case _ => None
    else if q[3] == '=' then
      match (Sextet(q[0]), Sextet(q[1]), Sextet(q[2]))
      case (Some(a), Some(b), Some(c)) => Some([a * 4 + b / 16, (b % 16) * 16 + c / 4])
      case _ => None
    else DecodeGroup(q)
  }

  /**
   * `base64.b64decode(s)` on well-formed input: groups of four letters,
   * padding only in the last group. None for any other string, which this
   * strict decoder refuses; the library by default drops characters outside
   * the alphabet and raises `binascii.Error` only on bad padding.
   */
  function Decode(s: string): Option<seq<Byte>>
    decreases |s|
  {
    if s == "" then Some([])
    else if |s| < 4 then None
    else if |s| == 4 then DecodeLast(s)
    else
      match DecodeGroup(s[..4])
      case None => None
      case Some(g) =>
        match Decode(s[4..])
        case None => None
        case Some(rest) => Some(g + rest)
  }

  /** Splitting a byte into its high and low bits and joining them again. */
  lemma Rejoin(x: Byte, d: int)
    requires d == 4 || d == 16 || d == 64
    ensures (x / d) * d + x % d == x
  {
  }

  /** Three bytes survive their four letters. */
  lemma DecodeEncodeGroup(b0: Byte, b1: Byte, b2: Byte)
    ensures DecodeGroup(EncodeGroup(b0, b1, b2)) == Some([b0, b1, b2])
  {
    var a, b, c, d := b0 / 4, (b0 % 4) * 16 + b1 / 16, (b1 % 16) * 4 + b2 / 64, b2 % 64;
    SextetAlphabet(a);
    SextetAlphabet(b);
    SextetAlphabet(c);
    SextetAlphabet(d);
    assert b / 16 == b0 % 4 && b % 16 == b1 / 16;
    assert c / 4 == b1 % 16 && c % 4 == b2 / 64;
    Rejoin(b0, 4);
    Rejoin(b1, 16);
    Rejoin(b2, 64);
  }

  /** One byte survives its two letters and "==". */
  lemma DecodeLastOne(b0: Byte)
    ensures DecodeLast(EncodeOne(b0)) == Some([b0])
  {
    var a, b := b0 / 4, (b0 % 4) * 16;
    SextetAlphabet(a);
    SextetAlphabet(b);
    assert b / 16 == b0 % 4;
    Rejoin(b0, 4);
  }

  /** One byte survives "xx==". */
  lemma DecodeEncodeOne(bs: seq<Byte>)
    requires |bs| == 1
    ensures Decode(Encode(bs)) == Some(bs)
  {
    DecodeLastOne(bs[0]);
    assert [bs[0]] == bs;
  }

  /** Two bytes survive their three letters and "=". */
  lemma DecodeLastTwo(b0: Byte, b1: Byte)
    ensures DecodeLast(EncodeTwo(b0, b1)) == Some([b0, b1])
  {
    var a, b, c := b0 / 4, (b0 % 4) * 16 + b1 / 16, (b1 % 16) * 4;
    SextetAlphabet(a);
    SextetAlphabet(b);
    SextetAlphabet(c);
    assert b / 16 == b0 % 4 && b % 16 == b1 / 16;
    assert c / 4 == b1 % 16;
    Rejoin(b0, 4);
    Rejoin(b1, 16);
  }

  /** Two bytes survive "xxx=". */
  lemma DecodeEncodeTwo(bs: seq<Byte>)
    requires |bs| == 2
    ensures Decode(Encode(bs)) == Some(bs)
  {
    DecodeLastTwo(bs[0], bs[1]);
    assert [bs[0], bs[1]] == bs;
  }

  /** A full group followed by more well-formed text decodes group by group. */
  lemma DecodeCons(g: string, rest: string, x: seq<Byte>, y: seq<Byte>)
    requires |g| == 4 && rest != [] && DecodeGroup(g) == Some(x) && Decode(rest) == Some(y)
    ensures Decode(g + rest) == Some(x + y)
  {
    var s := g + rest;
    assert s[..4] == g && s[4..] == rest;
  }

  /** An unpadded group standing alone decodes as a full group. */
  lemma DecodeSingle(g: string, x: seq<Byte>)
    requires |g| == 4 && DecodeGroup(g) == Some(x)
    ensures Decode(g) == Some(x)
  {
    assert Sextet(g[3]).Some?;
  }

  /** Three bytes alone: one unpadded group. */
  lemma DecodeEncodeThree(bs: seq<Byte>)
    requires |bs| == 3
    ensures Decode(Encode(bs)) == Some(bs)
  {
    var g := EncodeGroup(bs[0], bs[1], bs[2]);
    assert bs[3..] == [];
    assert Encode(bs) == g;
    DecodeEncodeGroup(bs[0], bs[1], bs[2]);
    DecodeSingle(g, [bs[0], bs[1], bs[2]]);
    assert bs == [bs[0], bs[1], bs[2]];
  }

  /** Decoding what was encoded gives the bytes back. */
  lemma {:induction false} DecodeEncode(bs: seq<Byte>)
    ensures Decode(Encode(bs)) == Some(bs)
    decreases |bs|
  {
    if |bs| == 1 {
      DecodeEncodeOne(bs);
    } else if |bs| == 2 {
      DecodeEncodeTwo(bs);
    } else if |bs| == 3 {
      DecodeEncodeThree(bs);
    } else if |bs| > 3 {
      var g, rest := EncodeGroup(bs[0], bs[1], bs[2]), Encode(bs[3..]);
      assert Encode(bs) == g + rest;
      DecodeEncodeGroup(bs[0], bs[1], bs[2]);
      DecodeEncode(bs[3..]);
      DecodeCons(g, rest, [bs[0], bs[1], bs[2]], bs[3..]);
      assert [bs[0], bs[1], bs[2]] + bs[3..] == bs;
    }
  }

  /** Every encoded character is a letter of the alphabet or the padding '='. */
  lemma {:induction false} EncodeAlphabet(bs: seq<Byte>)
    ensures forall i :: 0 <= i < |Encode(bs)| ==> Sextet(Encode(bs)[i]).Some? || Encode(bs)[i] == '='
    decreases |bs|
  {
    if |bs| >= 3 {
      EncodeAlphabet(bs[3..]);
      var g, rest := EncodeGroup(bs[0], bs[1], bs[2]), Encode(bs[3..]);
      SextetAlphabet(bs[0] / 4);
      SextetAlphabet((bs[0] % 4) * 16 + bs[1] / 16);
      SextetAlphabet((bs[1] % 16) * 4 + bs[2] / 64);
      SextetAlphabet(bs[2] % 64);
      forall i | 0 <= i < |g + rest| ensures Sextet((g + rest)[i]).Some? || (g + rest)[i] == '=' {
        if i >= 4 { assert (g + rest)[i] == rest[i - 4]; }
      }
    } else if |bs| == 2 {
      SextetAlphabet(bs[0] / 4);
      SextetAlphabet((bs[0] % 4) * 16 + bs[1] / 16);
      SextetAlphabet((bs[1] % 16) * 4);
    } else if |bs| == 1 {
      SextetAlphabet(bs[0] / 4);
      SextetAlphabet((bs[0] % 4) * 16);
    }
  }
}
