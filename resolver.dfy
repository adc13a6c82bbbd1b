/**
 * The string handling of `ImageInfo.__init__`: the XMP metadata map built
 * from the page's metadata list items, the signing path and token taken
 * from the page's signing pattern, the slug, id and display name taken
 * from the landing-page URL, and the descriptor document's URL and levels.
 * Fetching the page, the CSS selection of the list items, the regular
 * expression that finds the signing pattern, URL parsing and the XML
 * parsing of the descriptor are not modelled: their results are inputs.
 */
module Resolver {
  import opened Wrappers
  import opened Text
  import opened Pyramid

  /** The namespace every metadata tag is written under. */
  const Namespace: string := "Xmp.xmp."

  /** The provenance tag holding the landing-page URL. */
  const UrlKey: string := "Xmp.xmp.URL"

  /** A Python dict of strings: its keys in insertion order and its values. */
  datatype OrderedMap = OrderedMap(keys: seq<string>, vals: map<string, string>)
  {
    ghost predicate Valid()
    {
      && (forall i, j :: 0 <= i < j < |keys| ==> keys[i] != keys[j])
      && (forall k :: k in vals <==> k in keys)
    }

    /** `d[k] = v`: an existing key keeps its place, a new key goes last. */
    function Put(k: string, v: string): (m: OrderedMap)
      requires Valid()
      ensures m.Valid() && k in m.vals && m.vals[k] == v
      ensures forall k' :: k' != k ==> (k' in m.vals <==> k' in vals)
      ensures forall k' :: k' != k && k' in vals ==> m.vals[k'] == vals[k']
      ensures |keys| <= |m.keys| && m.keys[..|keys|] == keys
    {
      if k in vals then OrderedMap(keys, vals[k := v]) else OrderedMap(keys + [k], vals[k := v])
    }

    /** `d.items()`, in insertion order. */
    function Items(): seq<(string, string)>
      requires Valid()
    {
      seq(|keys|, i requires 0 <= i < |keys| => (keys[i], vals[keys[i]]))
    }
  }

  /**
   * The tag of a metadata list item: the namespace and the text before the
   * first `:` with every non-word character removed. Without a `:`,
   * `text.find(':')` is -1 and the slice drops the last character.
   */
  function MetadataKey(lib: TextLib, text: string): string
  {
    Namespace + Filter(lib.isWord, Slice(text, 0, Find(text, ':')))
  }

  /** The value of a metadata list item: the text after the first `:`, stripped (all of it without a `:`). */
  function MetadataValue(lib: TextLib, text: string): string
  {
    Strip(lib.isSpace, SliceFrom(text, Find(text, ':') + 1))
  }

  /** With a `:`, the tag comes from the text before the first one and the value from the text after it. */
  lemma MetadataEntryWithColon(lib: TextLib, text: string)
    requires ':' in text
    ensures MetadataKey(lib, text) == Namespace + Filter(lib.isWord, text[..Find(text, ':')])
    ensures MetadataValue(lib, text) == Strip(lib.isSpace, text[Find(text, ':') + 1..])
  {
    var i := Find(text, ':');
    assert SliceBound(0, |text|) == 0 && SliceBound(i, |text|) == i && SliceBound(i + 1, |text|) == i + 1;
  }

  /** Without a `:`, the tag drops the item's last character and the value is the whole item. */
  lemma MetadataEntryWithoutColon(lib: TextLib, text: string)
    requires ':' !in text
    ensures MetadataKey(lib, text) == Namespace + Filter(lib.isWord, if text == [] then [] else text[..|text| - 1])
    ensures MetadataValue(lib, text) == Strip(lib.isSpace, text)
  {
    assert Find(text, ':') == -1;
    assert SliceBound(0, |text|) == 0;
    assert text[SliceBound(0, |text|)..] == text;
  }

  /** The tag and value of one metadata list item. */
  function Entry(lib: TextLib, text: string): (string, string)
  {
    (MetadataKey(lib, text), MetadataValue(lib, text))
  }

  function Entries(lib: TextLib, texts: seq<string>): (es: seq<(string, string)>)
    ensures |es| == |texts|
  {
    seq(|texts|, i requires 0 <= i < |texts| => Entry(lib, texts[i]))
  }

  /** `m[k] = v` for every `(k, v)` of `entries`, in order. */
  function Assign(m: OrderedMap, entries: seq<(string, string)>): (r: OrderedMap)
    requires m.Valid()
    ensures r.Valid()
    ensures |m.keys| <= |r.keys| && r.keys[..|m.keys|] == m.keys
    decreases |entries|
  {
    if entries == [] then m
    else
      var n := |entries| - 1;
      Assign(m, entries[..n]).Put(entries[n].0, entries[n].1)
  }

  /** Assigning one more entry is one more `Put`. */
  lemma AssignStep(m: OrderedMap, entries: seq<(string, string)>, i: nat)
    requires m.Valid() && i < |entries|
    ensures Assign(m, entries[..i + 1]) == Assign(m, entries[..i]).Put(entries[i].0, entries[i].1)
  {
    assert entries[..i + 1][..i] == entries[..i];
  }

  /** The metadata map before any list item: the provenance tag only. */
  function Provenance(url: string): (m: OrderedMap)
    ensures m.Valid() && m.keys == [UrlKey] && m.vals[UrlKey] == url
  {
    OrderedMap([UrlKey], map[UrlKey := url])
  }

  /** `self.metadata` once every list item has been read. */
  function Metadata(lib: TextLib, url: string, texts: seq<string>): OrderedMap
  {
    Assign(Provenance(url), Entries(lib, texts))
  }

  /** The provenance tag comes first, and every tag is in the XMP namespace. */
  lemma {:induction false} MetadataKeysShape(lib: TextLib, url: string, texts: seq<string>)
    ensures |Metadata(lib, url, texts).keys| >= 1 && Metadata(lib, url, texts).keys[0] == UrlKey
    ensures forall k :: k in Metadata(lib, url, texts).keys ==> |k| >= |Namespace| && k[..|Namespace|] == Namespace
  {
    var es := Entries(lib, texts);
    AssignNamespaced(Provenance(url), es);
  }

  /** Assigning namespaced tags to a namespaced map keeps every tag namespaced. */
  lemma {:induction false} AssignNamespaced(m: OrderedMap, entries: seq<(string, string)>)
    requires m.Valid()
    requires forall k :: k in m.keys ==> |k| >= |Namespace| && k[..|Namespace|] == Namespace
    requires forall i :: 0 <= i < |entries| ==> |entries[i].0| >= |Namespace| && entries[i].0[..|Namespace|] == Namespace
    ensures forall k :: k in Assign(m, entries).keys ==> |k| >= |Namespace| && k[..|Namespace|] == Namespace
    decreases |entries|
  {
    if entries != [] {
      AssignNamespaced(m, entries[..|entries| - 1]);
    }
  }

  /** Some entry of `entries` assigns `k`. */
  ghost predicate Assigned(entries: seq<(string, string)>, k: string)
  {
    exists i :: 0 <= i < |entries| && entries[i].0 == k
  }

  lemma AssignedSnoc(entries: seq<(string, string)>, k: string)
    requires entries != []
    ensures Assigned(entries, k) <==> Assigned(entries[..|entries| - 1], k) || entries[|entries| - 1].0 == k
  {
    var init := entries[..|entries| - 1];
    if Assigned(entries, k) && entries[|entries| - 1].0 != k {
      var i :| 0 <= i < |entries| && entries[i].0 == k;
      assert init[i].0 == k;
    }
    if Assigned(init, k) {
      var i :| 0 <= i < |init| && init[i].0 == k;
      assert entries[i].0 == k;
    }
  }

  /** After the assignments, the keys are the old keys and the assigned ones. */
  lemma {:induction false} AssignKeys(m: OrderedMap, entries: seq<(string, string)>, k: string)
    requires m.Valid()
    ensures k in Assign(m, entries).vals <==> k in m.vals || Assigned(entries, k)
    decreases |entries|
  {
    if entries != [] {
      var n := |entries| - 1;
      AssignKeys(m, entries[..n], k);
      AssignedSnoc(entries, k);
    }
  }

  /** A key assigned several times holds the value of its last assignment. */
  lemma {:induction false} AssignLastWins(m: OrderedMap, entries: seq<(string, string)>, j: int)
    requires m.Valid() && 0 <= j < |entries|
    requires forall i :: j < i < |entries| ==> entries[i].0 != entries[j].0
    ensures entries[j].0 in Assign(m, entries).vals && Assign(m, entries).vals[entries[j].0] == entries[j].1
    decreases |entries|
  {
    if j < |entries| - 1 {
      AssignLastWins(m, entries[..|entries| - 1], j);
    }
  }

  /** A key never assigned keeps its value. */
  lemma {:induction false} AssignKeeps(m: OrderedMap, entries: seq<(string, string)>, k: string)
    requires m.Valid() && k in m.vals
    requires forall i :: 0 <= i < |entries| ==> entries[i].0 != k
    ensures k in Assign(m, entries).vals && Assign(m, entries).vals[k] == m.vals[k]
    decreases |entries|
  {
    if entries != [] {
      AssignKeeps(m, entries[..|entries| - 1], k);
    }
  }

  // ---------------------------------------------------------------------
  // Signing path and token

  const SlashByte: Byte := 47

  /** `s.rsplit(b'/', 1)[1]`: the octets after the last `/`; `IndexError` without one. */
  function AfterLastSlash(s: seq<Byte>): (r: Option<seq<Byte>>)
    ensures r.None? <==> SlashByte !in s
    ensures r.Some? ==>
      && |r.value| < |s| && s[|s| - |r.value| - 1] == SlashByte
      && s[|s| - |r.value|..] == r.value && SlashByte !in r.value
  {
    var i := RFind(s, SlashByte);
    if i < 0 then None else Some(s[i + 1..])
  }

  /** The descriptor document's URL: `https:` + the host-relative path + `=g`. */
  function DescriptorUrl(hostPath: seq<Byte>): seq<Byte>
  {
    Octets("https:") + hostPath + Octets("=g")
  }

  /** The host-relative path can be read back from the descriptor URL, so distinct paths give distinct URLs. */
  lemma DescriptorUrlInjective(a: seq<Byte>, b: seq<Byte>)
    requires DescriptorUrl(a) == DescriptorUrl(b)
    ensures a == b
  {
    var u, pre, post := DescriptorUrl(a), Octets("https:"), Octets("=g");
    assert a == u[|pre|..|u| - |post|];
    assert b == u[|pre|..|u| - |post|];
  }

  // ---------------------------------------------------------------------
  // Slug, id and display name

  /** `s.split('/')` has at least two parts exactly when `s` holds a `/`. */
  lemma SplitParts(s: string)
    ensures |Split(s, '/')| >= 2 <==> '/' in s
  {
    var i := Find(s, '/');
  }

  /** `slug, id = path.split('/')[-2:]`; unpacking fails without a `/`. */
  function SlugAndId(urlPath: string): (r: Option<(string, string)>)
    ensures r.None? <==> '/' !in urlPath
  {
    SplitParts(urlPath);
    var parts := Split(urlPath, '/');
    if |parts| < 2 then None else Some((parts[|parts| - 2], parts[|parts| - 1]))
  }

  /**
   * The slug and the id are the last two `/`-separated segments of the
   * URL's path: the path ends with slug + `/` + id, neither holds a `/`,
   * and what precedes the slug is empty or ends with `/`.
   */
  lemma SlugAndIdAreLastSegments(urlPath: string)
    requires SlugAndId(urlPath).Some?
    ensures var slug, id := SlugAndId(urlPath).value.0, SlugAndId(urlPath).value.1;
      && '/' !in slug && '/' !in id
      && |slug| + |id| + 1 <= |urlPath|
      && var p := urlPath[..|urlPath| - |slug| - |id| - 1];
      && urlPath == p + slug + "/" + id
      && (p == [] || p[|p| - 1] == '/')
  {
    var parts := Split(urlPath, '/');
    var n := |parts|;
    var slug, id := parts[n - 2], parts[n - 1];
    assert SlugAndId(urlPath).value == (slug, id);
    JoinSplit(urlPath, '/');
    var p := JoinLastTwo(parts, '/');
    assert urlPath == p + slug + "/" + id;
    assert urlPath[..|urlPath| - |slug| - |id| - 1] == p;
  }

  /** A join of two or more parts ends with the last two, after nothing or a separator. */
  lemma JoinLastTwo(parts: seq<string>, c: char) returns (p: string)
    requires |parts| >= 2
    ensures Join(parts, [c]) == p + parts[|parts| - 2] + [c] + parts[|parts| - 1]
    ensures p == [] || p[|p| - 1] == c
  {
    var n := |parts|;
    JoinLast(parts, [c]);
    var front := parts[..n - 1];
    if n == 2 {
      p := [];
      assert front == [parts[0]];
    } else {
      JoinLast(front, [c]);
      assert front[..n - 2] == parts[..n - 2];
      p := Join(parts[..n - 2], [c]) + [c];
    }
  }

  /** `str.capitalize`: the first character in title case, the rest in lower case. */
  function Capitalize(lib: TextLib, w: string): string
  {
    if w == [] then [] else lib.title(w[0]) + FlatMap(lib.lower, w[1..])
  }

  /** `string.capwords(s)`: the words of `s`, capitalized, joined by single spaces. */
  function Capwords(lib: TextLib, s: string): string
  {
    Join(CapitalizeAll(lib, Words(lib.isSpace, s)), " ")
  }

  function CapitalizeAll(lib: TextLib, ws: seq<string>): seq<string>
  {
    seq(|ws|, i requires 0 <= i < |ws| => Capitalize(lib, ws[i]))
  }

  /** `unidecode(capwords(slug.replace("-", " ")))` */
  function ImageName(lib: TextLib, slug: string): string
  {
    lib.unidecode(Capwords(lib, ReplaceChar(slug, '-', ' ')))
  }

  /** A slug word: one or more ASCII lower-case letters and digits. */
  predicate SlugWord(w: string)
  {
    |w| > 0 && forall j :: 0 <= j < |w| ==> IsAsciiLower(w[j]) || IsDigit(w[j])
  }

  /** `w` with its first letter in upper case. */
  function Titled(w: string): string
  {
    if w == [] then [] else [AsciiUpper(w[0])] + w[1..]
  }

  function TitleAll(ws: seq<string>): seq<string>
  {
    seq(|ws|, i requires 0 <= i < |ws| => Titled(ws[i]))
  }

  lemma {:induction false} LowerKeepsSlugText(lib: TextLib, s: string)
    requires AsciiTables(lib)
    requires forall j :: 0 <= j < |s| ==> IsAsciiLower(s[j]) || IsDigit(s[j])
    ensures FlatMap(lib.lower, s) == s
    decreases |s|
  {
    if s != [] {
      LowerKeepsSlugText(lib, s[1..]);
      assert lib.lower(s[0]) == [s[0]];
    }
  }

  /** A slug word has no hyphen and no white space, and `capitalize` upper-cases its first letter only. */
  lemma CapitalizeSlugWord(lib: TextLib, w: string)
    requires AsciiTables(lib) && SlugWord(w)
    ensures '-' !in w && Unbroken(lib.isSpace, w)
    ensures Capitalize(lib, w) == Titled(w)
  {
    assert forall j :: 0 <= j < |w| ==> IsAscii(w[j]);
    LowerKeepsSlugText(lib, w[1..]);
  }

  /** Slug words are words, and `capitalize` titles each of them. */
  lemma CapitalizeSlugWords(lib: TextLib, ws: seq<string>)
    requires AsciiTables(lib)
    requires forall i :: 0 <= i < |ws| ==> SlugWord(ws[i])
    ensures forall i :: 0 <= i < |ws| ==> '-' !in ws[i] && |ws[i]| > 0 && Unbroken(lib.isSpace, ws[i])
    ensures CapitalizeAll(lib, ws) == TitleAll(ws)
  {
    forall i | 0 <= i < |ws|
      ensures '-' !in ws[i] && |ws[i]| > 0 && Unbroken(lib.isSpace, ws[i])
      ensures Capitalize(lib, ws[i]) == Titled(ws[i])
    {
      CapitalizeSlugWord(lib, ws[i]);
    }
  }

  /**
   * The display name before transliteration, for a slug of ASCII words
   * joined by hyphens: the same words, each with its first letter in
   * upper case, joined by spaces.
   */
  lemma CapwordsOfSlug(lib: TextLib, ws: seq<string>)
    requires AsciiTables(lib)
    requires forall i :: 0 <= i < |ws| ==> SlugWord(ws[i])
    ensures Capwords(lib, ReplaceChar(Join(ws, "-"), '-', ' ')) == Join(TitleAll(ws), " ")
  {
    CapitalizeSlugWords(lib, ws);
    ReplaceJoin(ws, '-', ' ');
    assert lib.isSpace(' ');
    WordsOfJoin(lib.isSpace, ws);
    calc {
      Capwords(lib, ReplaceChar(Join(ws, "-"), '-', ' '));
      Capwords(lib, Join(ws, " "));
      Join(CapitalizeAll(lib, Words(lib.isSpace, Join(ws, " "))), " ");
      Join(CapitalizeAll(lib, ws), " ");
      Join(TitleAll(ws), " ");
    }
  }

  /** The display name of a slug of ASCII words: the title-cased words joined by spaces, transliterated. */
  lemma ImageNameOfSlug(lib: TextLib, ws: seq<string>)
    requires AsciiTables(lib)
    requires forall i :: 0 <= i < |ws| ==> SlugWord(ws[i])
    ensures ImageName(lib, Join(ws, "-")) == lib.unidecode(Join(TitleAll(ws), " "))
  {
    CapwordsOfSlug(lib, ws);
  }

  // ---------------------------------------------------------------------
  // The resolved image

  /** What the signing pattern captured on the page: `//host/path` and the token, or `null`. */
  datatype Capture = Capture(hostPath: seq<Byte>, token: Option<seq<Byte>>)

  /** The attributes of one `pyramid_level` element. */
  datatype LevelAttrs = LevelAttrs(tilesX: int, tilesY: int, emptyX: int, emptyY: int)

  /** The parsed descriptor document. */
  datatype DescriptorDoc = DescriptorDoc(tileWidth: int, tileHeight: int, levels: seq<LevelAttrs>)

  /** An `ImageInfo`: one per processed image, never changed once built. */
  datatype ImageInfo = ImageInfo(
    url: string,
    metadata: OrderedMap,
    path: seq<Byte>,
    token: seq<Byte>,
    slug: string,
    id: string,
    name: string,
    descriptorUrl: seq<Byte>,
    pyramid: Descriptor)

  /** The exceptions `ImageInfo(url)` raises. */
  datatype ResolveError =
    | TokenNotFound          // ValueError: the signing pattern is not on the page
    | EmptyHostPath          // AssertionError: the captured path is empty
    | NoPathSegment          // IndexError: the captured path has no `/`
    | UrlPathTooShort        // ValueError: the URL's path has no `/`
    | DescriptorUnavailable  // the descriptor document could not be fetched or parsed

  /** The levels of the descriptor, numbered by position. */
  function Levels(doc: DescriptorDoc): (d: Descriptor)
    ensures d.tileWidth == doc.tileWidth && d.tileHeight == doc.tileHeight
    ensures |d.levels| == |doc.levels|
    ensures forall i :: 0 <= i < |d.levels| ==> d.levels[i].num == i
    ensures forall i :: 0 <= i < |d.levels| ==>
      var a := doc.levels[i];
      d.levels[i].tilesX == a.tilesX && d.levels[i].tilesY == a.tilesY &&
      d.levels[i].emptyX == a.emptyX && d.levels[i].emptyY == a.emptyY
  {
    Descriptor(doc.tileWidth, doc.tileHeight,
      seq(|doc.levels|, i requires 0 <= i < |doc.levels| =>
        ZoomLevel(i, doc.levels[i].tilesX, doc.levels[i].tilesY, doc.levels[i].emptyX, doc.levels[i].emptyY)))
  }

  /** The loop over the metadata list items, each written into the map in turn. */
  method ReadMetadata(lib: TextLib, url: string, items: seq<string>) returns (metadata: OrderedMap)
    ensures metadata == Metadata(lib, url, items)
  {
    ghost var entries := Entries(lib, items);
    metadata := Provenance(url);
    for i := 0 to |items|
      invariant metadata == Assign(Provenance(url), entries[..i])
    {
      AssignStep(Provenance(url), entries, i);
      var text := items[i];
      assert entries[i] == (MetadataKey(lib, text), MetadataValue(lib, text));
      metadata := metadata.Put(MetadataKey(lib, text), MetadataValue(lib, text));
    }
    assert entries[..|items|] == entries;
  }

  /**
   * `ImageInfo(url)`, given the page's metadata list item texts, what the
   * signing pattern captured, the URL's unquoted path, and the descriptor
   * document fetched from a URL.
   */
  method Resolve(lib: TextLib, url: string, items: seq<string>, capture: Option<Capture>, urlPath: string,
                 fetch: seq<Byte> -> Option<DescriptorDoc>)
    returns (r: Result<ImageInfo, ResolveError>)
    ensures r == Err(TokenNotFound) <==> capture.None?
    ensures r == Err(EmptyHostPath) <==> capture.Some? && capture.value.hostPath == []
    ensures r == Err(NoPathSegment) <==> capture.Some? && capture.value.hostPath != [] && AfterLastSlash(capture.value.hostPath).None?
    ensures r == Err(UrlPathTooShort) <==> capture.Some? && AfterLastSlash(capture.value.hostPath).Some? && '/' !in urlPath
    ensures r == Err(DescriptorUnavailable) <==>
      capture.Some? && AfterLastSlash(capture.value.hostPath).Some? && '/' in urlPath
      && fetch(DescriptorUrl(capture.value.hostPath)).None?
    ensures r.Ok? ==>
      var info := r.value;
      && capture.Some? && AfterLastSlash(capture.value.hostPath).Some? && SlugAndId(urlPath).Some?
      && fetch(DescriptorUrl(capture.value.hostPath)).Some?
      && info.url == url
      && info.metadata == Metadata(lib, url, items)
      && info.path == AfterLastSlash(capture.value.hostPath).value
      && info.token == (if capture.value.token.Some? then capture.value.token.value else [])
      && (info.slug, info.id) == SlugAndId(urlPath).value
      && info.name == ImageName(lib, info.slug)
      && info.descriptorUrl == DescriptorUrl(capture.value.hostPath)
      && info.pyramid == Levels(fetch(DescriptorUrl(capture.value.hostPath)).value)
  {
    var metadata := ReadMetadata(lib, url, items);

    if capture.None? {
      return Err(TokenNotFound);
    }
    var hostPath := capture.value.hostPath;
    if hostPath == [] {
      return Err(EmptyHostPath);
    }
    var path := AfterLastSlash(hostPath);
    if path.None? {
      return Err(NoPathSegment);
    }
    var token := if capture.value.token.Some? then capture.value.token.value else [];
    var segments := SlugAndId(urlPath);
    if segments.None? {
      return Err(UrlPathTooShort);
    }
    var (slug, id) := segments.value;
    var name := ImageName(lib, slug);
    var descriptorUrl := DescriptorUrl(hostPath);
    var doc := fetch(descriptorUrl);
    if doc.None? {
      return Err(DescriptorUnavailable);
    }
    r := Ok(ImageInfo(url, metadata, path.value, token, slug, id, name, descriptorUrl, Levels(doc.value)));
  }
}
