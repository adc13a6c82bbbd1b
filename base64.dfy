/**
 * Base64 as in section 4 of RFC 4648 (the encoding behind Python's
 * `base64.b64encode`), with the decoding that inverts it.
 */
module Base64 {
  import opened Text

  /** The i-th character of the alphabet A-Z a-z 0-9 + / */
  function Char(i: int): char
    requires 0 <= i < 64
  {
    if i < 26 then ('A' as int + i) as char
    else if i < 52 then ('a' as int + (i - 26)) as char
    else if i < 62 then ('0' as int + (i - 52)) as char
    else if i == 62 then '+'
    else '/'
  }

  predicate InAlphabet(c: char)
  {
    IsAsciiUpper(c) || IsAsciiLower(c) || IsDigit(c) || c == '+' || c == '/'
  }

  /** The position of `c` in the alphabet (0 for any other character). */
  function Value(c: char): (v: nat)
    ensures v < 64
  {
    if IsAsciiUpper(c) then c as int - 'A' as int
    else if IsAsciiLower(c) then c as int - 'a' as int + 26
    else if IsDigit(c) then c as int - '0' as int + 52
    else if c == '+' then 62
    else if c == '/' then 63
    else 0
  }

  lemma ValueOfChar(i: int)
    requires 0 <= i < 64
    ensures InAlphabet(Char(i)) && Char(i) != '=' && Value(Char(i)) == i
  {
  }

  /** The four characters that encode three octets. */
  function Quad(b0: Byte, b1: Byte, b2: Byte): string
  {
    [Char(b0 / 4), Char((b0 % 4) * 16 + b1 / 16), Char((b1 % 16) * 4 + b2 / 64), Char(b2 % 64)]
  }

  /** `base64.b64encode(d)`, with `=` padding of a final group of one or two octets. */
  function Encode(d: seq<Byte>): (r: string)
    ensures |r| == 4 * ((|d| + 2) / 3)
    decreases |d|
  {
    if |d| == 0 then []
    else if |d| == 1 then [Char(d[0] / 4), Char((d[0] % 4) * 16), '=', '=']
    else if |d| == 2 then [Char(d[0] / 4), Char((d[0] % 4) * 16 + d[1] / 16), Char((d[1] % 16) * 4), '=']
    else Quad(d[0], d[1], d[2]) + Encode(d[3..])
  }

  /** The octets of the groups of four characters in `s`, ending at a padded group. */
  function Decode(s: string): seq<Byte>
    decreases |s|
  {
    if |s| < 4 then []
    else
      var v0, v1, v2, v3 := Value(s[0]), Value(s[1]), Value(s[2]), Value(s[3]);
      var b0: Byte := v0 * 4 + v1 / 16;
      var b1: Byte := (v1 % 16) * 16 + v2 / 4;
      var b2: Byte := (v2 % 4) * 64 + v3;
      if s[2] == '=' then [b0]
      else if s[3] == '=' then [b0, b1]
      else [b0, b1, b2] + Decode(s[4..])
  }

  /** The number of `=` characters that pad the encoding of `n` octets. */
  function Padding(n: nat): nat
  {
    (3 - n % 3) % 3
  }

  /** A group of four characters decodes to the three octets it encodes. */
  lemma DecodeQuad(b0: Byte, b1: Byte, b2: Byte, rest: string)
    ensures Decode(Quad(b0, b1, b2) + rest) == [b0, b1, b2] + Decode(rest)
  {
    var v0, v1, v2, v3 := b0 / 4, (b0 % 4) * 16 + b1 / 16, (b1 % 16) * 4 + b2 / 64, b2 % 64;
    ValueOfChar(v0);
    ValueOfChar(v1);
    ValueOfChar(v2);
    ValueOfChar(v3);
    assert v1 / 16 == b0 % 4 && v1 % 16 == b1 / 16;
    assert v2 / 4 == b1 % 16 && v2 % 4 == b2 / 64;
    var s := Quad(b0, b1, b2) + rest;
    assert s[..4] == Quad(b0, b1, b2) && s[4..] == rest;
  }

  /** Decoding undoes encoding. */
  lemma {:induction false} DecodeEncode(d: seq<Byte>)
    ensures Decode(Encode(d)) == d
    decreases |d|
  {
    if |d| == 1 {
      DecodeOne(d[0]);
      assert d == [d[0]];
    } else if |d| == 2 {
      DecodeTwo(d[0], d[1]);
      assert d == [d[0], d[1]];
    } else if |d| >= 3 {
      var rest := d[3..];
      DecodeQuad(d[0], d[1], d[2], Encode(rest));
      DecodeEncode(rest);
      calc {
        Decode(Encode(d));
        Decode(Quad(d[0], d[1], d[2]) + Encode(rest));
        [d[0], d[1], d[2]] + Decode(Encode(rest));
        [d[0], d[1], d[2]] + rest;
        { assert d == d[..3] + rest; }
        d;
      }
    }
  }

  /** A final group of one octet decodes to that octet. */
  lemma DecodeOne(b0: Byte)
    ensures Decode(Encode([b0])) == [b0]
  {
    var v0, v1 := b0 / 4, (b0 % 4) * 16;
    ValueOfChar(v0);
    ValueOfChar(v1);
    assert v1 / 16 == b0 % 4;
    var s := Encode([b0]);
    assert s == [Char(v0), Char(v1), '=', '='];
    assert Decode(s) == [(v0 * 4 + v1 / 16) as Byte];
  }

  /** A final group of two octets decodes to those octets. */
  lemma DecodeTwo(b0: Byte, b1: Byte)
    ensures Decode(Encode([b0, b1])) == [b0, b1]
  {
    var v0, v1, v2 := b0 / 4, (b0 % 4) * 16 + b1 / 16, (b1 % 16) * 4;
    ValueOfChar(v0);
    ValueOfChar(v1);
    ValueOfChar(v2);
    assert v1 / 16 == b0 % 4 && v1 % 16 == b1 / 16;
    assert v2 / 4 == b1 % 16;
    var s := Encode([b0, b1]);
    assert s == [Char(v0), Char(v1), Char(v2), '='];
    assert Decode(s) == [(v0 * 4 + v1 / 16) as Byte, ((v1 % 16) * 16 + v2 / 4) as Byte];
  }

  /**
   * Every character of an encoding is from the alphabet, except the
   * final `Padding(|d|)` characters, which are `=`.
   */
  lemma {:induction false} EncodeShape(d: seq<Byte>)
    ensures Padding(|d|) <= |Encode(d)|
    ensures forall i :: 0 <= i < |Encode(d)| - Padding(|d|) ==> InAlphabet(Encode(d)[i])
    ensures forall i :: |Encode(d)| - Padding(|d|) <= i < |Encode(d)| ==> Encode(d)[i] == '='
    decreases |d|
  {
    if 1 <= |d| <= 2 {
      ShortShape(d);
    } else if |d| >= 3 {
      var b0, b1, b2 := d[0], d[1], d[2];
      QuadInAlphabet(b0, b1, b2);
      EncodeShape(d[3..]);
      var e, rest := Encode(d), Encode(d[3..]);
      assert e == Quad(b0, b1, b2) + rest;
      assert Padding(|d|) == Padding(|d| - 3);
      forall i | 0 <= i < |e| - Padding(|d|)
        ensures InAlphabet(e[i])
      {
        if i >= 4 { assert e[i] == rest[i - 4]; }
      }
      forall i | |e| - Padding(|d|) <= i < |e|
        ensures e[i] == '='
      {
        assert e[i] == rest[i - 4];
      }
    }
  }

  lemma QuadInAlphabet(b0: Byte, b1: Byte, b2: Byte)
    ensures forall i :: 0 <= i < 4 ==> InAlphabet(Quad(b0, b1, b2)[i])
  {
    ValueOfChar(b0 / 4);
    ValueOfChar((b0 % 4) * 16 + b1 / 16);
    ValueOfChar((b1 % 16) * 4 + b2 / 64);
    ValueOfChar(b2 % 64);
  }

  lemma ShortShape(d: seq<Byte>)
    requires 1 <= |d| <= 2
    ensures forall i :: 0 <= i < 4 - Padding(|d|) ==> InAlphabet(Encode(d)[i])
    ensures forall i :: 4 - Padding(|d|) <= i < 4 ==> Encode(d)[i] == '='
  {
    if |d| == 1 {
      ValueOfChar(d[0] / 4);
      ValueOfChar((d[0] % 4) * 16);
    } else {
      ValueOfChar(d[0] / 4);
      ValueOfChar((d[0] % 4) * 16 + d[1] / 16);
      ValueOfChar((d[1] % 16) * 4);
    }
  }

  /** `base64.b64encode(d, altchars)`: `+` and `/` replaced by the two alternatives. */
  function EncodeAlt(d: seq<Byte>, plus: char, slash: char): (r: string)
    ensures |r| == |Encode(d)|
    ensures forall i :: 0 <= i < |r| && Encode(d)[i] == '+' ==> r[i] == plus
    ensures forall i :: 0 <= i < |r| && Encode(d)[i] == '/' ==> r[i] == slash
    ensures forall i :: 0 <= i < |r| && Encode(d)[i] !in "+/" ==> r[i] == Encode(d)[i]
  {
    var e := Encode(d);
    seq(|e|, i requires 0 <= i < |e| => if e[i] == '+' then plus else if e[i] == '/' then slash else e[i])
  }
}
