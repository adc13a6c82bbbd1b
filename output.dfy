/**
 * The decisions `load_tiles` takes around the pixel work: which level it
 * downloads, whether the result is PNG or JPEG, which tiles it fetches and
 * where each is pasted, the author and date it reads from the metadata,
 * the output file name and the encoder options.
 */
module Output {
  import opened Wrappers
  import opened Text
  import opened Pyramid
  import opened Resolver

  /** `s.lower()` */
  function Lower(lib: TextLib, s: string): string
  {
    FlatMap(lib.lower, s)
  }

  /** A tag naming the author: `Xmp.xmp.Creator` or `Xmp.xmp.Painter` in any case. */
  predicate IsAuthorKey(lib: TextLib, k: string)
  {
    Lower(lib, k) == "xmp.xmp.creator" || Lower(lib, k) == "xmp.xmp.painter"
  }

  /** A tag naming the date: `Xmp.xmp.Date` or `Xmp.xmp.DateCreated` in any case. */
  predicate IsDateKey(lib: TextLib, k: string)
  {
    Lower(lib, k) == "xmp.xmp.date" || Lower(lib, k) == "xmp.xmp.datecreated"
  }

  /**
   * What a variable holds after `for key, value in items: if isKey(key): v = f(value)`
   * when it started as `dflt`.
   */
  function LastValue(isKey: string -> bool, f: string -> string, dflt: string, items: seq<(string, string)>): string
    decreases |items|
  {
    if items == [] then dflt
    else
      var n := |items| - 1;
      if isKey(items[n].0) then f(items[n].1) else LastValue(isKey, f, dflt, items[..n])
  }

  /** Without a matching key the variable keeps its initial value. */
  lemma {:induction false} LastValueDefault(isKey: string -> bool, f: string -> string, dflt: string, items: seq<(string, string)>)
    requires forall i :: 0 <= i < |items| ==> !isKey(items[i].0)
    ensures LastValue(isKey, f, dflt, items) == dflt
    decreases |items|
  {
    if items != [] {
      LastValueDefault(isKey, f, dflt, items[..|items| - 1]);
    }
  }

  /** The last matching key decides the value: later matches overwrite earlier ones. */
  lemma {:induction false} LastValueLastMatch(isKey: string -> bool, f: string -> string, dflt: string,
                                              items: seq<(string, string)>, j: int)
    requires 0 <= j < |items| && isKey(items[j].0)
    requires forall i :: j < i < |items| ==> !isKey(items[i].0)
    ensures LastValue(isKey, f, dflt, items) == f(items[j].1)
    decreases |items|
  {
    if j < |items| - 1 {
      LastValueLastMatch(isKey, f, dflt, items[..|items| - 1], j);
    }
  }

  /** The author after the scan: the transliterated value of the last author tag, "0" without one. */
  function AuthorOf(lib: TextLib, items: seq<(string, string)>): string
  {
    LastValue(k => IsAuthorKey(lib, k), lib.unidecode, "0", items)
  }

  /** `value.replace('/', '-')` */
  function DashedDate(value: string): (date: string)
    ensures |date| == |value|
    ensures forall i :: 0 <= i < |value| && value[i] == '/' ==> date[i] == '-'
    ensures forall i :: 0 <= i < |value| && value[i] != '/' ==> date[i] == value[i]
    ensures '/' !in date
  {
    ReplaceChar(value, '/', '-')
  }

  /**
   * The date after the scan: the value of the last date tag with `/` turned
   * into `-`, "" without one. The test sits in the `elif` of the author test,
   * and no tag is both.
   */
  function DateOf(lib: TextLib, items: seq<(string, string)>): string
  {
    LastValue(k => !IsAuthorKey(lib, k) && IsDateKey(lib, k), DashedDate, "", items)
  }

  /** No tag names both the author and the date. */
  lemma AuthorDateDisjoint(lib: TextLib, k: string)
    ensures !(IsAuthorKey(lib, k) && IsDateKey(lib, k))
  {
  }

  /** The date never holds a `/`. */
  lemma {:induction false} DateHasNoSlash(lib: TextLib, items: seq<(string, string)>)
    ensures '/' !in DateOf(lib, items)
    decreases |items|
  {
    if items != [] {
      DateHasNoSlash(lib, items[..|items| - 1]);
    }
  }

  /** The loop over `info.metadata.items()` that picks the author and the date. */
  method ScanAuthorDate(lib: TextLib, items: seq<(string, string)>) returns (author: string, date: string)
    ensures author == AuthorOf(lib, items) && date == DateOf(lib, items)
  {
    author, date := "0", "";
    for i := 0 to |items|
      invariant author == AuthorOf(lib, items[..i]) && date == DateOf(lib, items[..i])
    {
      assert items[..i + 1][..i] == items[..i];
      var (key, value) := items[i];
      if IsAuthorKey(lib, key) {
        author := lib.unidecode(value);
      } else if IsDateKey(lib, key) {
        date := DashedDate(value);
      }
    }
    assert items[..|items|] == items;
  }

  /** `s.lower()` of an ASCII string is its ASCII lower-case form. */
  lemma {:induction false} LowerAscii(lib: TextLib, s: string)
    requires AsciiTables(lib)
    requires forall i :: 0 <= i < |s| ==> IsAscii(s[i])
    ensures Lower(lib, s) == seq(|s|, i requires 0 <= i < |s| => AsciiLower(s[i]))
    decreases |s|
  {
    if s != [] {
      LowerAscii(lib, s[1..]);
      assert lib.lower(s[0]) == [AsciiLower(s[0])];
    }
  }

  /** Tags are matched without regard to case: ASCII tags that differ only in case match alike. */
  lemma KeyMatchIgnoresCase(lib: TextLib, k: string, k': string)
    requires AsciiTables(lib)
    requires |k| == |k'|
    requires forall i :: 0 <= i < |k| ==> IsAscii(k[i]) && IsAscii(k'[i]) && AsciiLower(k[i]) == AsciiLower(k'[i])
    ensures IsAuthorKey(lib, k) <==> IsAuthorKey(lib, k')
    ensures IsDateKey(lib, k) <==> IsDateKey(lib, k')
  {
    LowerAscii(lib, k);
    LowerAscii(lib, k');
    assert Lower(lib, k) == Lower(lib, k');
  }

  // ---------------------------------------------------------------------
  // File name and encoder options

  /** `name[0:len(name)-len(author)-1]`, the display name meant to be without its trailing author. */
  function TrimmedName(name: string, author: string): string
  {
    Slice(name, 0, |name| - |author| - 1)
  }

  /** A display name that ends with a space and the author loses exactly that suffix. */
  lemma TrimmedNameDropsAuthor(base: string, author: string)
    ensures TrimmedName(base + " " + author, author) == base
  {
    var name := base + " " + author;
    assert SliceBound(|name| - |author| - 1, |name|) == |base|;
  }

  /**
   * When the author is longer than the display name, the end of the slice
   * is negative and Python counts it from the end of the name.
   */
  lemma TrimmedNameNegativeEnd(name: string, author: string)
    requires |name| < |author| + 1
    ensures var e := |name| - |author| - 1;
      TrimmedName(name, author) == if |name| + e >= 0 then name[..|name| + e] else []
  {
  }

  function Extension(png: bool): string
  {
    if png then ".png" else ".jpg"
  }

  /**
   * The output file name. `author` is always a string, so the source's
   * `author == 0` test is never true and this is the only form taken.
   */
  function FileName(author: string, date: string, name: string, id: string, png: bool): string
  {
    author + " - " + date + " - " + TrimmedName(name, author) + " - " + id + Extension(png)
  }

  /** The file name ends in `.png` exactly when the image is PNG, and in `.jpg` otherwise. */
  lemma FileNameExtension(author: string, date: string, name: string, id: string, png: bool)
    ensures var f := FileName(author, date, name, id, png);
      && |f| >= 4
      && (f[|f| - 4..] == ".png" <==> png)
      && (f[|f| - 4..] == ".jpg" <==> !png)
  {
    var f := FileName(author, date, name, id, png);
    assert f[|f| - 4..] == Extension(png);
  }

  /** Without an author tag the file name begins with the default author "0". */
  lemma FileNameWithoutAuthor(lib: TextLib, items: seq<(string, string)>, name: string, id: string, png: bool)
    requires forall i :: 0 <= i < |items| ==> !IsAuthorKey(lib, items[i].0)
    ensures var f := FileName(AuthorOf(lib, items), DateOf(lib, items), name, id, png);
      |f| >= 4 && f[..4] == "0 - "
  {
    LastValueDefault(k => IsAuthorKey(lib, k), lib.unidecode, "0", items);
  }

  /** The keyword arguments of `img.save`. */
  datatype SaveOptions =
    | PngOptions(optimize: bool)
    | JpegOptions(quality: int, subsampling: int, optimize: bool)

  /** `optimize=False` is the encoder's default, which the source gets by omitting it. */
  function SaveOptionsFor(png: bool, quality: int): (o: SaveOptions)
    ensures o.PngOptions? <==> png
    ensures o.PngOptions? ==> o.optimize
    ensures o.JpegOptions? ==> o.quality == quality && o.subsampling == 0 && (o.optimize <==> quality < 95)
  {
    if png then PngOptions(true) else JpegOptions(quality, 0, quality < 95)
  }

  // ---------------------------------------------------------------------
  // The plan of one `load_tiles` call

  datatype LoadPlan = LoadPlan(
    zoom: nat,
    level: ZoomLevel,
    canvas: (int, int),
    png: bool,
    tiles: seq<(nat, nat)>,
    origins: seq<(int, int)>,
    author: string,
    date: string,
    fileName: string,
    save: SaveOptions,
    writeXmp: bool)

  /** The paste loop: where each tile of a list is pasted on the canvas, whatever the list's order. */
  method Origins(d: Descriptor, tiles: seq<(nat, nat)>) returns (origins: seq<(int, int)>)
    ensures |origins| == |tiles|
    ensures forall i :: 0 <= i < |tiles| ==> origins[i] == TileOrigin(d, tiles[i].0, tiles[i].1)
  {
    origins := [];
    for i := 0 to |tiles|
      invariant |origins| == i
      invariant forall j :: 0 <= j < i ==> origins[j] == TileOrigin(d, tiles[j].0, tiles[j].1)
    {
      var (x, y) := tiles[i];
      origins := origins + [TileOrigin(d, x, y)];
    }
  }

  /**
   * Everything `load_tiles(info, z, quality=quality)` decides: the level,
   * the canvas size, the PNG flag, the tiles in fetch order and the
   * position each is pasted at, the author, the date, the file name, the
   * encoder options, and whether the XMP metadata is written (JPEG only).
   */
  method PlanLoad(lib: TextLib, info: ImageInfo, z: int, quality: int) returns (r: Result<LoadPlan, ZoomError>)
    requires info.metadata.Valid()
    ensures r.Err? <==> info.pyramid.levels == []
    ensures r.Ok? ==>
      var d, p := info.pyramid, r.value;
      && NormalizeZoom(z, |d.levels|).Ok?
      && p.zoom == NormalizeZoom(z, |d.levels|).value
      && p.level == d.levels[p.zoom]
      && p.canvas == Size(d, p.level)
      && p.png == NeedsPng(p.canvas)
      && p.tiles == Grid(p.level.tilesX, p.level.tilesY)
      && |p.origins| == |p.tiles|
      && (forall i :: 0 <= i < |p.tiles| ==> p.origins[i] == TileOrigin(d, p.tiles[i].0, p.tiles[i].1))
      && p.author == AuthorOf(lib, info.metadata.Items())
      && p.date == DateOf(lib, info.metadata.Items())
      && p.fileName == FileName(p.author, p.date, info.name, info.id, p.png)
      && p.save == SaveOptionsFor(p.png, quality)
      && p.writeXmp == !p.png
  {
    var d := info.pyramid;
    var n := |d.levels|;
    var zoom := z;
    if zoom >= n {
      zoom := n - 1;
    }
    if n == 0 {
      return Err(NoLevels);
    }
    zoom := zoom % n;
    var level := d.levels[zoom];
    var canvas := Size(d, level);
    var png := false;
    if canvas.0 > JpegLimit || canvas.1 > JpegLimit {
      png := true;
    }
    var tiles := Grid(level.tilesX, level.tilesY);
    var origins := Origins(d, tiles);
    var author, date := ScanAuthorDate(lib, info.metadata.Items());
    var fileName := FileName(author, date, info.name, info.id, png);
    r := Ok(LoadPlan(zoom, level, canvas, png, tiles, origins, author, date, fileName,
                     SaveOptionsFor(png, quality), !png));
  }
}
