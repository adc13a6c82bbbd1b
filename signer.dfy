/**
 * The tile-URL signer `compute_url`: the exact octet message that is
 * signed, the HMAC-SHA1 signature in the service's base64 variant, and
 * the URL it is spliced into.
 */
module Signer {
  import opened Text
  import opened Base64

  /** The fixed 8-octet HMAC key of the tile service, hex 7b2b4e23de2cc5c5. */
  const IV: seq<Byte> := [0x7b, 0x2b, 0x4e, 0x23, 0xde, 0x2c, 0xc5, 0xc5]

  /** A SHA-1 digest: 20 octets. */
  type Digest = d: seq<Byte> | |d| == 20
    witness [0, 0, 0, 0, 0, 0, 0, 0, 0, 0, 0, 0, 0, 0, 0, 0, 0, 0, 0, 0]

  /**
   * HMAC-SHA1 (RFC 2104) of a message under a key. Its internals are not
   * part of this model: every signer below takes it as a parameter.
   */
  type Hmac = (seq<Byte>, seq<Byte>) -> Digest

  /** The fixed start of every tile URL. */
  const Host: string := "https://lh3.googleusercontent.com/"

  /** The coordinate part `=x<x>-y<y>-z<z>-t`, common to the message and the URL. */
  function Coords(x: nat, y: nat, z: nat): string
  {
    "=x" + (Dec(x) + ("-y" + (Dec(y) + ("-z" + (Dec(z) + "-t")))))
  }

  /** `b'%s=x%d-y%d-z%d-t%s' % (path, x, y, z, token)` */
  function SignedMessage(path: seq<Byte>, token: seq<Byte>, x: nat, y: nat, z: nat): seq<Byte>
  {
    path + Octets(Coords(x, y, z)) + token
  }

  /**
   * `base64.b64encode(digest, b'__')[:-1]`: both `+` and `/` become `_`,
   * and the last character is dropped.
   */
  function Signature(digest: Digest): string
  {
    Slice(EncodeAlt(digest, '_', '_'), 0, -1)
  }

  /** `compute_url(path, token, x, y, z)`, as octets. */
  function ComputeUrl(hmac: Hmac, path: seq<Byte>, token: seq<Byte>, x: nat, y: nat, z: nat): seq<Byte>
  {
    Octets(Host) + path + Octets(Coords(x, y, z)) + Octets(Signature(hmac(IV, SignedMessage(path, token, x, y, z))))
  }

  predicate SignatureChar(c: char)
  {
    IsAsciiUpper(c) || IsAsciiLower(c) || IsDigit(c) || c == '_'
  }

  /**
   * A signature is 27 characters of letters, digits and `_`: the character
   * dropped from the 28-character encoding of 20 octets is its one `=`.
   */
  lemma SignatureShape(digest: Digest)
    ensures |Signature(digest)| == 27
    ensures Signature(digest) + "=" == EncodeAlt(digest, '_', '_')
    ensures forall i :: 0 <= i < 27 ==> SignatureChar(Signature(digest)[i])
    ensures '=' !in Signature(digest)
  {
    EncodeShape(digest);
    var e := EncodeAlt(digest, '_', '_');
    assert |e| == 28 && Padding(20) == 1;
    assert Signature(digest) == e[..27];
    assert e == e[..27] + [e[27]];
    forall i | 0 <= i < 27
      ensures SignatureChar(e[i]) && e[i] != '='
    {
      assert InAlphabet(Encode(digest)[i]);
    }
  }

  lemma CoordsLatin1(x: nat, y: nat, z: nat)
    ensures Latin1(Coords(x, y, z))
  {
  }

  /** Distinct tile coordinates give distinct coordinate parts. */
  lemma CoordsInjective(x: nat, y: nat, z: nat, x': nat, y': nat, z': nat)
    requires Coords(x, y, z) == Coords(x', y', z')
    ensures x == x' && y == y' && z == z'
  {
    var c, c' := Coords(x, y, z), Coords(x', y', z');
    var r := "-y" + (Dec(y) + ("-z" + (Dec(z) + "-t")));
    var r' := "-y" + (Dec(y') + ("-z" + (Dec(z') + "-t")));
    assert c[2..] == Dec(x) + r && c'[2..] == Dec(x') + r';
    SplitAfterDigits(Dec(x), r, Dec(x'), r');
    DecInjective(x, x');
    var s := "-z" + (Dec(z) + "-t");
    var s' := "-z" + (Dec(z') + "-t");
    assert r[2..] == Dec(y) + s && r'[2..] == Dec(y') + s';
    SplitAfterDigits(Dec(y), s, Dec(y'), s');
    DecInjective(y, y');
    assert s[2..] == Dec(z) + "-t" && s'[2..] == Dec(z') + "-t";
    SplitAfterDigits(Dec(z), "-t", Dec(z'), "-t");
    DecInjective(z, z');
  }

  /** Under one path and token, the message names its tile: distinct tiles sign distinct messages. */
  lemma SignedMessageInjective(path: seq<Byte>, token: seq<Byte>, x: nat, y: nat, z: nat, x': nat, y': nat, z': nat)
    requires SignedMessage(path, token, x, y, z) == SignedMessage(path, token, x', y', z')
    ensures x == x' && y == y' && z == z'
  {
    var m, m' := SignedMessage(path, token, x, y, z), SignedMessage(path, token, x', y', z');
    var c, c' := Octets(Coords(x, y, z)), Octets(Coords(x', y', z'));
    assert m[|path|..|m| - |token|] == c;
    assert m'[|path|..|m'| - |token|] == c';
    CoordsLatin1(x, y, z);
    CoordsLatin1(x', y', z');
    OctetsInjective(Coords(x, y, z), Coords(x', y', z'));
    CoordsInjective(x, y, z, x', y', z');
  }

  /**
   * Whatever the HMAC, the URL names its tile: under one path and token,
   * distinct tiles get distinct URLs.
   */
  lemma ComputeUrlInjective(hmac: Hmac, path: seq<Byte>, token: seq<Byte>, x: nat, y: nat, z: nat, x': nat, y': nat, z': nat)
    requires ComputeUrl(hmac, path, token, x, y, z) == ComputeUrl(hmac, path, token, x', y', z')
    ensures x == x' && y == y' && z == z'
  {
    var u, u' := ComputeUrl(hmac, path, token, x, y, z), ComputeUrl(hmac, path, token, x', y', z');
    var c, c' := Octets(Coords(x, y, z)), Octets(Coords(x', y', z'));
    SignatureShape(hmac(IV, SignedMessage(path, token, x, y, z)));
    SignatureShape(hmac(IV, SignedMessage(path, token, x', y', z')));
    var h := |Host| + |path|;
    assert u[h..|u| - 27] == c;
    assert u'[h..|u'| - 27] == c';
    CoordsLatin1(x, y, z);
    CoordsLatin1(x', y', z');
    OctetsInjective(Coords(x, y, z), Coords(x', y', z'));
    CoordsInjective(x, y, z, x', y', z');
  }

  /**
   * The URL is the host, the signed message without its token, and the
   * signature of the whole message.
   */
  lemma ComputeUrlLayout(hmac: Hmac, path: seq<Byte>, token: seq<Byte>, x: nat, y: nat, z: nat)
    ensures var m := SignedMessage(path, token, x, y, z);
      ComputeUrl(hmac, path, token, x, y, z)
        == Octets(Host) + m[..|m| - |token|] + Octets(Signature(hmac(IV, m)))
  {
    var m := SignedMessage(path, token, x, y, z);
    assert m[..|m| - |token|] == path + Octets(Coords(x, y, z));
  }

  /**
   * The digest whose signature is the one in the documented example of
   * `compute_url`, written group by group as base64 consumes it.
   */
  const ExampleDigest: Digest :=
    [29, 226, 119] + ([199, 41, 103] + ([75, 44, 135] + ([60, 108, 12] + ([102, 41, 136] + ([224, 69, 119] + [36, 255])))))

  lemma ExampleQuads()
    ensures Quad(29, 226, 119) == "HeJ3" && Quad(199, 41, 103) == "xyln" && Quad(75, 44, 135) == "SyyH"
  {
  }

  lemma ExampleQuads'()
    ensures Quad(60, 108, 12) == "PGwM" && Quad(102, 41, 136) == "ZimI" && Quad(224, 69, 119) == "4EV3"
  {
  }

  lemma EncodeGroup(b0: Byte, b1: Byte, b2: Byte, rest: seq<Byte>)
    ensures Encode([b0, b1, b2] + rest) == Quad(b0, b1, b2) + Encode(rest)
  {
    assert ([b0, b1, b2] + rest)[3..] == rest;
  }

  /** When the encoding has no `+` and no `/`, the alternative characters change nothing. */
  lemma EncodeAltUnchanged(d: seq<Byte>, plus: char, slash: char)
    requires '+' !in Encode(d) && '/' !in Encode(d)
    ensures EncodeAlt(d, plus, slash) == Encode(d)
  {
  }

  lemma ExampleEncoding()
    ensures Encode(ExampleDigest)
      == "HeJ3" + ("xyln" + ("SyyH" + ("PGwM" + ("ZimI" + ("4EV3" + "JP8=")))))
  {
    ExampleQuads();
    ExampleQuads'();
    assert Encode([36, 255]) == "JP8=";
    EncodeGroup(224, 69, 119, [36, 255]);
    EncodeGroup(102, 41, 136, [224, 69, 119] + [36, 255]);
    EncodeGroup(60, 108, 12, [102, 41, 136] + ([224, 69, 119] + [36, 255]));
    EncodeGroup(75, 44, 135, [60, 108, 12] + ([102, 41, 136] + ([224, 69, 119] + [36, 255])));
    EncodeGroup(199, 41, 103, [75, 44, 135] + ([60, 108, 12] + ([102, 41, 136] + ([224, 69, 119] + [36, 255]))));
    EncodeGroup(29, 226, 119, [199, 41, 103] + ([75, 44, 135] + ([60, 108, 12] + ([102, 41, 136] + ([224, 69, 119] + [36, 255])))));
  }

  /** The documented signature and its encoding with the padding character. */
  const ExampleSig: string := "HeJ3xylnSyyHPGwMZimI4EV3JP8"

  lemma ExampleEncodingIsSig()
    ensures "HeJ3" + ("xyln" + ("SyyH" + ("PGwM" + ("ZimI" + ("4EV3" + "JP8=")))))  == ExampleSig + "="
  {
  }

  lemma ExampleSigAlphabet()
    ensures '+' !in ExampleSig + "=" && '/' !in ExampleSig + "="
  {
  }

  lemma DropLast(s: string)
    requires |s| >= 1
    ensures Slice(s, 0, -1) == s[..|s| - 1]
  {
  }

  lemma ExampleSignature()
    ensures Signature(ExampleDigest) == ExampleSig
  {
    ExampleEncoding();
    ExampleEncodingIsSig();
    ExampleSigAlphabet();
    var e := Encode(ExampleDigest);
    EncodeAltUnchanged(ExampleDigest, '_', '_');
    DropLast(e);
    assert e[..|e| - 1] == ExampleSig;
  }

  /** The path and token of the documented example of `compute_url`. */
  const ExamplePath: string := "wGcDNN8L-2COcm9toX5BTp6HPxpMPPPuxrMU-ZL-W-nDHW8I_L4R5vlBJ6ITtlmONQ"
  const ExampleToken: string := "KwCgJ1QIfgprHn0a93x7Q-HhJ04"

  /**
   * The documented example: for tile (0, 0, 7) of the example path and
   * token, an HMAC that yields `ExampleDigest` makes `ComputeUrl` produce
   * the documented URL, `https://lh3.googleusercontent.com/` + path +
   * `=x0-y0-z7-tHeJ3xylnSyyHPGwMZimI4EV3JP8`.
   */
  lemma ExampleUrl(hmac: Hmac)
    requires hmac(IV, SignedMessage(Octets(ExamplePath), Octets(ExampleToken), 0, 0, 7)) == ExampleDigest
    ensures ComputeUrl(hmac, Octets(ExamplePath), Octets(ExampleToken), 0, 0, 7)
      == Octets(Host + ExamplePath + "=x0-y0-z7-t" + ExampleSig)
  {
    ExampleSignature();
    assert Coords(0, 0, 7) == "=x0-y0-z7-t";
    OctetsConcat(Host, ExamplePath);
    OctetsConcat(Host + ExamplePath, "=x0-y0-z7-t");
    OctetsConcat(Host + ExamplePath + "=x0-y0-z7-t", ExampleSig);
  }
}
