/**
 * The parts of Python's `str` and `bytes` behaviour that the downloader
 * relies on, stated over Dafny sequences: `%d` formatting, `find`/`rfind`,
 * slicing with negative bounds, `split`, `join`, `strip`, `replace`.
 * Python's Unicode character tables and the `unidecode` package are not
 * modelled; they are supplied as the parameter record `TextLib`.
 */
module Text {

  /** An octet of a Python `bytes` object. */
  type Byte = b: int | 0 <= b < 256

  /**
   * The library tables a Python `str` operation consults.
   *   isWord    - membership in the regular-expression class `\w`
   *   isSpace   - `str.isspace`, used by `split()` and `strip()`
   *   lower     - `str.lower` of one character (may be several characters)
   *   title     - title case of one character, used by `str.capitalize`
   *   unidecode - the `unidecode` transliteration to ASCII
   */
  datatype TextLib = TextLib(
    isWord: char -> bool,
    isSpace: char -> bool,
    lower: char -> string,
    title: char -> string,
    unidecode: string -> string)

  predicate IsAscii(c: char) { c as int < 128 }

  predicate IsAsciiUpper(c: char) { 'A' <= c <= 'Z' }

  predicate IsAsciiLower(c: char) { 'a' <= c <= 'z' }

  predicate IsDigit(c: char) { '0' <= c <= '9' }

  predicate AllDigits(s: string) { forall i :: 0 <= i < |s| ==> IsDigit(s[i]) }

  function AsciiLower(c: char): char
  {
    if IsAsciiUpper(c) then (c as int + 32) as char else c
  }

  function AsciiUpper(c: char): char
  {
    if IsAsciiLower(c) then (c as int - 32) as char else c
  }

  /** What Python's tables say about the ASCII range. */
  ghost predicate AsciiTables(lib: TextLib)
  {
    && (forall c :: IsAscii(c) ==> (lib.isWord(c) <==> IsAsciiUpper(c) || IsAsciiLower(c) || IsDigit(c) || c == '_'))
    && (forall c :: IsAscii(c) ==> (lib.isSpace(c) <==> c == ' ' || '\t' <= c <= '\r' || 28 <= c as int <= 31))
    && (forall c :: IsAscii(c) ==> lib.lower(c) == [AsciiLower(c)])
    && (forall c :: IsAscii(c) ==> lib.title(c) == [AsciiUpper(c)])
  }

  // ---------------------------------------------------------------------
  // '%d' formatting of a non-negative integer

  function DigitChar(d: nat): char
    requires d < 10
  {
    ('0' as int + d) as char
  }

  function DigitValue(c: char): nat
    requires IsDigit(c)
  {
    c as int - '0' as int
  }

  /** `'%d' % n`: the decimal digits of `n`, most significant first. */
  function Dec(n: nat): (s: string)
    ensures 1 <= |s| && AllDigits(s)
    ensures s[0] == '0' ==> n == 0
    decreases n
  {
    if n < 10 then [DigitChar(n)] else Dec(n / 10) + [DigitChar(n % 10)]
  }

  /** The value of a run of decimal digits. */
  function ParseDec(s: string): nat
    requires AllDigits(s)
    decreases |s|
  {
    if s == [] then 0 else ParseDec(s[..|s| - 1]) * 10 + DigitValue(s[|s| - 1])
  }

  /** Reading back what `Dec` writes gives the number again. */
  lemma {:induction false} ParseDecOfDec(n: nat)
    ensures ParseDec(Dec(n)) == n
    decreases n
  {
    if n >= 10 {
      var s := Dec(n);
      assert s[..|s| - 1] == Dec(n / 10);
      ParseDecOfDec(n / 10);
    }
  }

  /** Distinct numbers are written differently. */
  lemma DecInjective(a: nat, b: nat)
    ensures Dec(a) == Dec(b) ==> a == b
  {
    ParseDecOfDec(a);
    ParseDecOfDec(b);
  }

  /**
   * A run of digits followed by a non-digit can be cut off the front of a
   * string in one way only.
   */
  lemma SplitAfterDigits(a: string, r: string, b: string, t: string)
    requires AllDigits(a) && AllDigits(b)
    requires |r| > 0 && !IsDigit(r[0]) && |t| > 0 && !IsDigit(t[0])
    requires a + r == b + t
    ensures a == b && r == t
  {
    assert a == (a + r)[..|a|] && b == (b + t)[..|b|];
    assert r == (a + r)[|a|..] && t == (b + t)[|b|..];
  }

  // ---------------------------------------------------------------------
  // Octets of an ASCII text

  /** The octets of a text whose characters are below 256 (Latin-1). */
  function Octets(s: string): (b: seq<Byte>)
    ensures |b| == |s|
  {
    seq(|s|, i requires 0 <= i < |s| => (s[i] as int) % 256)
  }

  lemma OctetsConcat(a: string, b: string)
    ensures Octets(a + b) == Octets(a) + Octets(b)
  {
  }

  predicate Latin1(s: string) { forall i :: 0 <= i < |s| ==> s[i] as int < 256 }

  lemma OctetsInjective(a: string, b: string)
    requires Latin1(a) && Latin1(b)
    requires Octets(a) == Octets(b)
    ensures a == b
  {
    forall i | 0 <= i < |a|
      ensures a[i] == b[i]
    {
      assert Octets(a)[i] == Octets(b)[i];
    }
  }

  // ---------------------------------------------------------------------
  // find, rfind and slicing

  /** `s.find(c)`: the first index holding `c`, or -1. */
  function Find<T(==)>(s: seq<T>, c: T): (i: int)
    ensures -1 <= i < |s|
    ensures i >= 0 ==> s[i] == c && c !in s[..i]
    ensures i == -1 ==> c !in s
    decreases |s|
  {
    if s == [] then -1
    else if s[0] == c then 0
    else
      var j := Find(s[1..], c);
      assert s == [s[0]] + s[1..];
      if j == -1 then -1
      else
        assert s[..j + 1] == [s[0]] + s[1..][..j];
        j + 1
  }

  /** `s.rfind(c)`: the last index holding `c`, or -1. */
  function RFind<T(==)>(s: seq<T>, c: T): (i: int)
    ensures -1 <= i < |s|
    ensures i >= 0 ==> s[i] == c && c !in s[i + 1..]
    ensures i == -1 ==> c !in s
    decreases |s|
  {
    if s == [] then -1
    else if s[|s| - 1] == c then |s| - 1
    else
      var j := RFind(s[..|s| - 1], c);
      assert s == s[..|s| - 1] + [s[|s| - 1]];
      if j >= 0 then assert s[j + 1..] == s[..|s| - 1][j + 1..] + [s[|s| - 1]]; j
      else j
  }

  /** Python's reading of a slice bound `i` against a length `n`. */
  function SliceBound(i: int, n: nat): (k: nat)
    ensures k <= n
  {
    if i < 0 then (if i + n < 0 then 0 else i + n)
    else if i > n then n
    else i
  }

  /** `s[i:j]` */
  function Slice<T>(s: seq<T>, i: int, j: int): seq<T>
  {
    var a, b := SliceBound(i, |s|), SliceBound(j, |s|);
    if a <= b then s[a..b] else []
  }

  /** `s[i:]` */
  function SliceFrom<T>(s: seq<T>, i: int): seq<T>
  {
    s[SliceBound(i, |s|)..]
  }

  // ---------------------------------------------------------------------
  // Character-wise rewriting

  /** `s.replace(a, b)` for single characters. */
  function ReplaceChar(s: string, a: char, b: char): (r: string)
    ensures |r| == |s|
    ensures forall i :: 0 <= i < |s| ==> r[i] == (if s[i] == a then b else s[i])
    ensures a != b ==> a !in r
  {
    seq(|s|, i requires 0 <= i < |s| => if s[i] == a then b else s[i])
  }

  /** The characters of `s` that satisfy `p`, in order. */
  function Filter(p: char -> bool, s: string): (r: string)
    ensures |r| <= |s|
    ensures forall i :: 0 <= i < |r| ==> p(r[i])
    ensures (forall i :: 0 <= i < |s| ==> p(s[i])) ==> r == s
    decreases |s|
  {
    if s == [] then [] else (if p(s[0]) then [s[0]] else []) + Filter(p, s[1..])
  }

  lemma {:induction false} FilterNone(p: char -> bool, s: string)
    requires forall i :: 0 <= i < |s| ==> !p(s[i])
    ensures Filter(p, s) == []
    decreases |s|
  {
    if s != [] {
      FilterNone(p, s[1..]);
    }
  }

  /** Filtering a concatenation filters each part: the kept characters stay in order. */
  lemma {:induction false} FilterConcat(p: char -> bool, a: string, b: string)
    ensures Filter(p, a + b) == Filter(p, a) + Filter(p, b)
    decreases |a|
  {
    if a == [] {
      assert a + b == b;
    } else {
      var head := if p(a[0]) then [a[0]] else [];
      FilterConcat(p, a[1..], b);
      assert (a + b)[0] == a[0] && (a + b)[1..] == a[1..] + b;
      calc {
        Filter(p, a + b);
        head + Filter(p, a[1..] + b);
        head + (Filter(p, a[1..]) + Filter(p, b));
        Filter(p, a) + Filter(p, b);
      }
    }
  }

  /** The concatenation of `f(c)` over the characters `c` of `s`. */
  function FlatMap(f: char -> string, s: string): string
    decreases |s|
  {
    if s == [] then [] else f(s[0]) + FlatMap(f, s[1..])
  }

  // ---------------------------------------------------------------------
  // strip, split, join

  /** The number of leading characters of `s` that satisfy `sp`. */
  function Leading(sp: char -> bool, s: string): (k: nat)
    ensures k <= |s|
    ensures forall i :: 0 <= i < k ==> sp(s[i])
    ensures k < |s| ==> !sp(s[k])
    decreases |s|
  {
    if s == [] || !sp(s[0]) then 0 else 1 + Leading(sp, s[1..])
  }

  /** The number of trailing characters of `s` that satisfy `sp`. */
  function Trailing(sp: char -> bool, s: string): (k: nat)
    ensures k <= |s|
    ensures forall i :: |s| - k <= i < |s| ==> sp(s[i])
    ensures k < |s| ==> !sp(s[|s| - 1 - k])
    decreases |s|
  {
    if s == [] || !sp(s[|s| - 1]) then 0 else 1 + Trailing(sp, s[..|s| - 1])
  }

  /**
   * `s.strip()`: `s` without its leading and trailing white space. The
   * result sits in `s` between two runs of white space that make up the
   * rest of it, and neither starts nor ends with white space itself.
   */
  function Strip(sp: char -> bool, s: string): (r: string)
    ensures r == [] || (!sp(r[0]) && !sp(r[|r| - 1]))
    ensures exists k :: Padded(sp, s, r, k)
  {
    var k := Leading(sp, s);
    var t := s[k..];
    var m := Trailing(sp, t);
    var r := t[..|t| - m];
    assert r == t[..|r|];
    forall i | k + |r| <= i < |s|
      ensures sp(s[i])
    {
      assert s[i] == t[i - k] && |t| - m <= i - k;
    }
    assert Padded(sp, s, r, k);
    r
  }

  /** `s` is `r` at offset `k`, with only white space before and after it. */
  predicate Padded(sp: char -> bool, s: string, r: string, k: int)
  {
    && 0 <= k <= |s| - |r| && s[k..][..|r|] == r
    && (forall i :: 0 <= i < k ==> sp(s[i]))
    && (forall i :: k + |r| <= i < |s| ==> sp(s[i]))
  }

  /** `s.split(c)`: the maximal runs between occurrences of `c`. */
  function Split<T(==)>(s: seq<T>, c: T): (parts: seq<seq<T>>)
    ensures |parts| >= 1
    ensures forall i :: 0 <= i < |parts| ==> c !in parts[i]
    decreases |s|
  {
    var i := Find(s, c);
    if i == -1 then [s] else [s[..i]] + Split(s[i + 1..], c)
  }

  /** `sep.join(parts)` */
  function Join<T>(parts: seq<seq<T>>, sep: seq<T>): seq<T>
    decreases |parts|
  {
    if parts == [] then []
    else if |parts| == 1 then parts[0]
    else parts[0] + sep + Join(parts[1..], sep)
  }

  lemma JoinCons<T>(p: seq<T>, tail: seq<seq<T>>, sep: seq<T>)
    requires |tail| >= 1
    ensures Join([p] + tail, sep) == p + sep + Join(tail, sep)
  {
    assert ([p] + tail)[1..] == tail;
  }

  /** Splitting on `c` and joining with `c` gives the text back. */
  lemma {:induction false} JoinSplit<T>(s: seq<T>, c: T)
    ensures Join(Split(s, c), [c]) == s
    decreases |s|
  {
    var i := Find(s, c);
    if i == -1 {
      assert Split(s, c) == [s];
    } else {
      var head, rest := s[..i], s[i + 1..];
      var tail := Split(rest, c);
      JoinSplit(rest, c);
      JoinCons(head, tail, [c]);
      calc {
        Join(Split(s, c), [c]);
        Join([head] + tail, [c]);
        head + [c] + Join(tail, [c]);
        head + [c] + rest;
        { assert s == s[..i] + [s[i]] + s[i + 1..]; }
        s;
      }
    }
  }

  /** The last part of a join is separated from the others by `sep`. */
  lemma {:induction false} JoinLast<T>(parts: seq<seq<T>>, sep: seq<T>)
    requires |parts| >= 2
    ensures Join(parts, sep) == Join(parts[..|parts| - 1], sep) + sep + parts[|parts| - 1]
    decreases |parts|
  {
    if |parts| > 2 {
      JoinLast(parts[1..], sep);
      assert parts[1..][..|parts| - 2] == parts[..|parts| - 1][1..];
    }
  }

  /** The length of the run of non-space characters at the front of `s`. */
  function WordLength(sp: char -> bool, s: string): (k: nat)
    ensures k <= |s|
    ensures forall i :: 0 <= i < k ==> !sp(s[i])
    ensures k < |s| ==> sp(s[k])
    decreases |s|
  {
    if s == [] || sp(s[0]) then 0 else 1 + WordLength(sp, s[1..])
  }

  /** `w` holds no white space. */
  predicate Unbroken(sp: char -> bool, w: string)
  {
    forall j :: 0 <= j < |w| ==> !sp(w[j])
  }

  /** The test for the characters `split()` keeps. */
  function NotSpace(sp: char -> bool): char -> bool
  {
    c => !sp(c)
  }

  /**
   * `s.split()`: the maximal runs of non-space characters. Together they
   * hold every non-space character of `s`, in order.
   */
  function Words(sp: char -> bool, s: string): (ws: seq<string>)
    ensures forall i :: 0 <= i < |ws| ==> |ws[i]| > 0 && Unbroken(sp, ws[i])
    ensures Join(ws, []) == Filter(NotSpace(sp), s)
    decreases |s|
  {
    var k := Leading(sp, s);
    var t := s[k..];
    SpacesFiltered(sp, s, k);
    if t == [] then []
    else
      assert t[0] == s[k];
      var w := WordLength(sp, t);
      assert w > 0 && Unbroken(sp, t[..w]);
      var rest := Words(sp, t[w..]);
      WordsCons(sp, t[..w], rest);
      WordFiltered(sp, t, w);
      JoinNothingCons(t[..w], rest);
      [t[..w]] + rest
  }

  /** Leading white space contributes nothing to the non-space characters. */
  lemma {:induction false} SpacesFiltered(sp: char -> bool, s: string, k: nat)
    requires k <= |s| && forall i :: 0 <= i < k ==> sp(s[i])
    ensures Filter(NotSpace(sp), s) == Filter(NotSpace(sp), s[k..])
    decreases k
  {
    if k > 0 {
      assert sp(s[0]);
      SpacesFiltered(sp, s[1..], k - 1);
      assert s[1..][k - 1..] == s[k..];
    }
  }

  /** A word at the front contributes all of its characters. */
  lemma WordFiltered(sp: char -> bool, t: string, w: nat)
    requires w <= |t| && Unbroken(sp, t[..w])
    ensures Filter(NotSpace(sp), t) == t[..w] + Filter(NotSpace(sp), t[w..])
  {
    var keep, word := NotSpace(sp), t[..w];
    forall i | 0 <= i < |word|
      ensures keep(word[i])
    {
    }
    assert Filter(keep, word) == word;
    assert t == word + t[w..];
    FilterConcat(keep, word, t[w..]);
  }

  /** `''.join([w] + rest)` */
  lemma JoinNothingCons(w: string, rest: seq<string>)
    ensures Join([w] + rest, []) == w + Join(rest, [])
  {
    if rest != [] {
      JoinCons(w, rest, []);
    }
  }

  lemma WordsCons(sp: char -> bool, w: string, ws: seq<string>)
    requires |w| > 0 && Unbroken(sp, w)
    requires forall i :: 0 <= i < |ws| ==> |ws[i]| > 0 && Unbroken(sp, ws[i])
    ensures forall i :: 0 <= i < |[w] + ws| ==> |([w] + ws)[i]| > 0 && Unbroken(sp, ([w] + ws)[i])
  {
  }

  lemma ReplaceCharConcat(x: string, y: string, a: char, b: char)
    ensures ReplaceChar(x + y, a, b) == ReplaceChar(x, a, b) + ReplaceChar(y, a, b)
  {
  }

  /** Replacing a separator that no part holds turns one join into the other. */
  lemma {:induction false} ReplaceJoin(parts: seq<string>, a: char, b: char)
    requires forall i :: 0 <= i < |parts| ==> a !in parts[i]
    ensures ReplaceChar(Join(parts, [a]), a, b) == Join(parts, [b])
    decreases |parts|
  {
    if |parts| == 1 {
      assert ReplaceChar(parts[0], a, b) == parts[0];
    } else if |parts| > 1 {
      var p, tail := parts[0], parts[1..];
      ReplaceJoin(tail, a, b);
      assert ReplaceChar(p, a, b) == p;
      ReplaceCharConcat(p + [a], Join(tail, [a]), a, b);
      ReplaceCharConcat(p, [a], a, b);
    }
  }

  /** White space in front of a text does not change its words. */
  lemma WordsAfterSpace(sp: char -> bool, c: char, x: string)
    requires sp(c)
    ensures Words(sp, [c] + x) == Words(sp, x)
  {
    var s := [c] + x;
    assert s[1..] == x;
    assert Leading(sp, s) == 1 + Leading(sp, x);
    assert s[Leading(sp, s)..] == x[Leading(sp, x)..];
  }

  /** A word followed by white space (or by nothing) is the first word. */
  lemma WordsOfFront(sp: char -> bool, w: string, rest: string)
    requires |w| > 0 && Unbroken(sp, w)
    requires rest == [] || sp(rest[0])
    ensures Words(sp, w + rest) == [w] + Words(sp, rest)
  {
    var s := w + rest;
    assert Leading(sp, s) == 0;
    assert s[0..] == s;
    WordLengthOf(sp, w, rest);
    assert s[..|w|] == w && s[|w|..] == rest;
    if rest != [] {
      WordsAfterSpace(sp, rest[0], rest[1..]);
      assert rest == [rest[0]] + rest[1..];
    }
  }

  lemma {:induction false} WordLengthOf(sp: char -> bool, w: string, rest: string)
    requires Unbroken(sp, w)
    requires rest == [] || sp(rest[0])
    ensures WordLength(sp, w + rest) == |w|
    decreases |w|
  {
    if w != [] {
      WordLengthOf(sp, w[1..], rest);
      assert (w + rest)[1..] == w[1..] + rest;
    } else {
      assert w + rest == rest;
    }
  }

  /** A single word splits to itself. */
  lemma WordsOfWord(sp: char -> bool, w: string)
    requires |w| > 0 && Unbroken(sp, w)
    ensures Words(sp, w) == [w]
  {
    WordsOfFront(sp, w, []);
    assert w + [] == w;
  }

  /** A word, a space and more text: the word, then the words of the rest. */
  lemma WordsOfJoinStep(sp: char -> bool, w: string, j: string)
    requires sp(' ') && |w| > 0 && Unbroken(sp, w)
    ensures Words(sp, w + " " + j) == [w] + Words(sp, j)
  {
    var rest := [' '] + j;
    assert w + " " + j == w + rest;
    WordsOfFront(sp, w, rest);
    WordsAfterSpace(sp, ' ', j);
  }

  /** Splitting words joined by single spaces gives the words back. */
  lemma {:induction false} WordsOfJoin(sp: char -> bool, ws: seq<string>)
    requires sp(' ')
    requires forall i :: 0 <= i < |ws| ==> |ws[i]| > 0 && Unbroken(sp, ws[i])
    ensures Words(sp, Join(ws, " ")) == ws
    decreases |ws|
  {
    if ws == [] {
    } else if |ws| == 1 {
      WordsOfWord(sp, ws[0]);
    } else {
      var w, tail := ws[0], ws[1..];
      WordsOfJoin(sp, tail);
      WordsOfJoinStep(sp, w, Join(tail, " "));
      calc {
        Words(sp, Join(ws, " "));
        Words(sp, w + " " + Join(tail, " "));
        [w] + Words(sp, Join(tail, " "));
        [w] + tail;
        { assert ws == [w] + tail; }
        ws;
      }
    }
  }
}
