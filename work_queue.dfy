/**
 * The batch driver: the download queue kept in the `dlcache` table, the
 * batch add of URLs keyed by image id, the walk over the rows not yet
 * downloaded with the default zoom and its two-pass downgrade, and what
 * is written back to the cache.
 */
module WorkQueue {
  import opened Wrappers
  import opened Text
  import opened Pyramid
  import opened Resolver

  /**
   * `u[-(len(u)-u.rfind("/")-1):]`: the text after the last `/`. Without a
   * `/`, or with `/` as the last character, the slice start is `-len(u)`
   * or `-0`, and the id is all of `u`.
   */
  function ImageIdOf(u: string): (id: string)
    ensures '/' !in u ==> id == u
    ensures u != [] && u[|u| - 1] == '/' ==> id == u
    ensures '/' in u && u[|u| - 1] != '/' ==>
      && 0 < |id| < |u| && '/' !in id
      && u[|u| - |id| - 1] == '/' && u[|u| - |id|..] == id
  {
    SliceFrom(u, -(|u| - RFind(u, '/') - 1))
  }

  /** The quality `--quality` must lie in for a URL to be queued or a download to start. */
  predicate QualityOk(q: int)
  {
    0 <= q <= 95
  }

  /** One row of the queue. */
  datatype Entry = Entry(url: string, quality: int, downloaded: bool)

  /** The queue table: its row ids in row order and the row of each id. */
  datatype Table = Table(order: seq<string>, rows: map<string, Entry>)
  {
    ghost predicate Valid()
    {
      && (forall i, j :: 0 <= i < j < |order| ==> order[i] != order[j])
      && (forall k :: k in rows <==> k in order)
    }
  }

  function EmptyTable(): (t: Table)
    ensures t.Valid()
  {
    Table([], map[])
  }

  /**
   * One URL of a batch: an id already queued leaves the table as it is; a
   * new id fails the quality assertion or gets a new row at the end.
   * The flag is false when the assertion fails. The batch loop takes ids
   * with `ImageIdOf`; the properties below hold for any id function.
   */
  function AddOne(idOf: string -> string, t: Table, u: string, q: int): (Table, bool)
  {
    var id := idOf(u);
    if id in t.rows then (t, true)
    else if !QualityOk(q) then (t, false)
    else (Table(t.order + [id], t.rows[id := Entry(u, q, false)]), true)
  }

  /** The batch loop: each URL in turn, stopping at the first failed assertion. */
  function AddAll(idOf: string -> string, t: Table, urls: seq<string>, q: int): (Table, bool)
    decreases |urls|
  {
    if urls == [] then (t, true)
    else
      var (t1, ok) := AddOne(idOf, t, urls[0], q);
      if !ok then (t1, false) else AddAll(idOf, t1, urls[1..], q)
  }

  /** Adding one URL keeps the table well formed and changes no existing row. */
  lemma AddOneKeeps(idOf: string -> string, t: Table, u: string, q: int)
    requires t.Valid()
    ensures AddOne(idOf, t, u, q).0.Valid()
    ensures |t.order| <= |AddOne(idOf, t, u, q).0.order| && AddOne(idOf, t, u, q).0.order[..|t.order|] == t.order
    ensures forall k :: k in t.rows ==> k in AddOne(idOf, t, u, q).0.rows && AddOne(idOf, t, u, q).0.rows[k] == t.rows[k]
  {
  }

  /**
   * A batch keeps the table well formed, never changes or reorders an
   * existing row, and adds rows only for ids of its URLs, each new row
   * pending at the batch quality.
   */
  lemma AddAllKeeps(idOf: string -> string, t: Table, urls: seq<string>, q: int)
    requires t.Valid()
    ensures var r := AddAll(idOf, t, urls, q).0;
      && r.Valid()
      && |t.order| <= |r.order| && r.order[..|t.order|] == t.order
      && (forall k :: k in t.rows ==> k in r.rows && r.rows[k] == t.rows[k])
      && (forall k :: k in r.rows && k !in t.rows ==>
            && r.rows[k].quality == q && !r.rows[k].downloaded && idOf(r.rows[k].url) == k
            && r.rows[k].url in urls)
  {
    AddAllKeepsRows(idOf, t, urls, q);
    AddAllNewRows(idOf, t, urls, q);
  }

  /** A batch keeps the table well formed and never changes or reorders an existing row. */
  lemma {:induction false} AddAllKeepsRows(idOf: string -> string, t: Table, urls: seq<string>, q: int)
    requires t.Valid()
    ensures var r := AddAll(idOf, t, urls, q).0;
      && r.Valid()
      && |t.order| <= |r.order| && r.order[..|t.order|] == t.order
      && (forall k :: k in t.rows ==> k in r.rows && r.rows[k] == t.rows[k])
    decreases |urls|
  {
    if urls != [] {
      var (t1, ok) := AddOne(idOf, t, urls[0], q);
      AddOneKeeps(idOf, t, urls[0], q);
      if ok {
        AddAllKeepsRows(idOf, t1, urls[1..], q);
        var r := AddAll(idOf, t1, urls[1..], q).0;
        assert r.order[..|t.order|] == r.order[..|t1.order|][..|t.order|];
      }
    }
  }

  /** Every row a batch adds is pending, at the batch quality, for one of its URLs under that URL's id. */
  lemma {:induction false} AddAllNewRows(idOf: string -> string, t: Table, urls: seq<string>, q: int)
    requires t.Valid()
    ensures var r := AddAll(idOf, t, urls, q).0;
      forall k :: k in r.rows && k !in t.rows ==>
        && r.rows[k].quality == q && !r.rows[k].downloaded && idOf(r.rows[k].url) == k
        && r.rows[k].url in urls
    decreases |urls|
  {
    if urls != [] {
      var (t1, ok) := AddOne(idOf, t, urls[0], q);
      if ok {
        AddOneKeeps(idOf, t, urls[0], q);
        AddAllNewRows(idOf, t1, urls[1..], q);
        AddAllKeepsRows(idOf, t1, urls[1..], q);
        var r := AddAll(idOf, t1, urls[1..], q).0;
        forall k | k in r.rows && k !in t.rows
          ensures r.rows[k].quality == q && !r.rows[k].downloaded && idOf(r.rows[k].url) == k
          ensures r.rows[k].url in urls
        {
          if k in t1.rows {
            assert r.rows[k] == t1.rows[k] == Entry(urls[0], q, false);
          } else {
            assert r.rows[k].url in urls[1..];
          }
        }
      }
    }
  }

  /** A queued id stays queued through a batch. */
  lemma {:induction false} AddAllKeepsId(idOf: string -> string, t: Table, urls: seq<string>, q: int, k: string)
    requires k in t.rows
    ensures k in AddAll(idOf, t, urls, q).0.rows
    decreases |urls|
  {
    if urls != [] {
      var t1 := AddOne(idOf, t, urls[0], q).0;
      assert k in t1.rows;
      AddAllKeepsId(idOf, t1, urls[1..], q, k);
    }
  }

  /** A batch that completes leaves every one of its ids in the table. */
  lemma {:induction false} AddAllCovers(idOf: string -> string, t: Table, urls: seq<string>, q: int)
    requires AddAll(idOf, t, urls, q).1
    ensures forall i :: 0 <= i < |urls| ==> idOf(urls[i]) in AddAll(idOf, t, urls, q).0.rows
    decreases |urls|
  {
    if urls != [] {
      var t1 := AddOne(idOf, t, urls[0], q).0;
      var rest := urls[1..];
      AddAllCovers(idOf, t1, rest, q);
      AddAllKeepsId(idOf, t1, rest, q, idOf(urls[0]));
      assert forall i :: 1 <= i < |urls| ==> urls[i] == rest[i - 1];
    }
  }

  /** A batch fails exactly when the quality is out of range and some id is new. */
  lemma {:induction false} AddAllFails(idOf: string -> string, t: Table, urls: seq<string>, q: int)
    requires t.Valid()
    ensures !AddAll(idOf, t, urls, q).1 <==> !QualityOk(q) && exists i :: 0 <= i < |urls| && idOf(urls[i]) !in t.rows
    decreases |urls|
  {
    if urls != [] {
      var (t1, ok) := AddOne(idOf, t, urls[0], q);
      if ok {
        AddAllFails(idOf, t1, urls[1..], q);
        if !QualityOk(q) {
          assert t1 == t;
          if exists i :: 0 <= i < |urls| && idOf(urls[i]) !in t.rows {
            var i :| 0 <= i < |urls| && idOf(urls[i]) !in t.rows;
            assert idOf(urls[1..][i - 1]) !in t1.rows;
          }
          if exists i :: 0 <= i < |urls[1..]| && idOf(urls[1..][i]) !in t1.rows {
            var i :| 0 <= i < |urls[1..]| && idOf(urls[1..][i]) !in t1.rows;
            assert idOf(urls[i + 1]) !in t.rows;
          }
        }
      }
    }
  }

  /** Adding a URL whose id is queued changes nothing, so adding a URL twice is adding it once. */
  lemma AddOneIdempotent(idOf: string -> string, t: Table, u: string, q: int)
    requires t.Valid()
    ensures AddOne(idOf, AddOne(idOf, t, u, q).0, u, q) == AddOne(idOf, t, u, q)
  {
  }

  /** A completed batch added again leaves the table as it is. */
  lemma {:induction false} AddAllIdempotent(idOf: string -> string, t: Table, urls: seq<string>, q: int)
    requires t.Valid() && AddAll(idOf, t, urls, q).1
    ensures AddAll(idOf, AddAll(idOf, t, urls, q).0, urls, q) == (AddAll(idOf, t, urls, q).0, true)
  {
    AddAllCovers(idOf, t, urls, q);
    AddAllKeeps(idOf, t, urls, q);
    AddAllPresent(idOf, AddAll(idOf, t, urls, q).0, urls, q);
  }

  /** A batch whose ids are all queued changes nothing. */
  lemma {:induction false} AddAllPresent(idOf: string -> string, t: Table, urls: seq<string>, q: int)
    requires forall i :: 0 <= i < |urls| ==> idOf(urls[i]) in t.rows
    ensures AddAll(idOf, t, urls, q) == (t, true)
    decreases |urls|
  {
    if urls != [] {
      AddAllPresent(idOf, t, urls[1..], q);
    }
  }

  /** The same URL twice in a batch has the effect of once. */
  lemma AddTwiceIsAddOnce(idOf: string -> string, t: Table, u: string, q: int)
    requires t.Valid()
    ensures AddAll(idOf, t, [u, u], q) == AddAll(idOf, t, [u], q)
  {
    assert [u, u][1..] == [u];
    assert [u][1..] == [];
    var (t1, ok) := AddOne(idOf, t, u, q);
    if ok {
      AddOneIdempotent(idOf, t, u, q);
    }
  }

  // ---------------------------------------------------------------------
  // Zoom choice

  /** With no `--zoom`, the driver starts from the highest level. */
  function DefaultZoom(d: Descriptor): int
  {
    |d.levels| - 1
  }

  /** The level at Python index `z` has a side over the JPEG limit. */
  predicate TooLarge(d: Descriptor, z: int)
    requires -|d.levels| <= z < |d.levels|
  {
    NeedsPng(Size(d, PyIndex(d.levels, z)))
  }

  /** One pass of the downgrade: one level down when the current one is too large for JPEG. */
  function Downgrade(d: Descriptor, z: int): int
    requires -|d.levels| <= z < |d.levels|
  {
    if TooLarge(d, z) then z - 1 else z
  }

  /** The zoom the driver hands to `load_tiles`: the default zoom after both passes. */
  function ChosenZoom(d: Descriptor): int
    requires d.levels != []
  {
    Downgrade(d, Downgrade(d, DefaultZoom(d)))
  }

  /**
   * At most two decrements, each taken only when the level at hand is too
   * large: a top level that fits is kept, and a level still too large
   * after two decrements is used anyway.
   */
  lemma ChosenZoomSteps(d: Descriptor)
    requires d.levels != []
    ensures var top, z := DefaultZoom(d), ChosenZoom(d);
      && top - 2 <= z <= top
      && (z == top <==> !TooLarge(d, top))
      && (z == top - 1 <==> TooLarge(d, top) && !TooLarge(d, top - 1))
      && (z == top - 2 <==> TooLarge(d, top) && TooLarge(d, top - 1))
  {
  }

  /**
   * The level `load_tiles` downloads for the chosen zoom is the one Python's
   * `tile_info[zoom]` names, except with a single level where `-2` wraps
   * back to level 0.
   */
  lemma ChosenZoomLevel(d: Descriptor)
    requires d.levels != []
    ensures NormalizeZoom(ChosenZoom(d), |d.levels|).Ok?
    ensures |d.levels| >= 2 ==>
      d.levels[NormalizeZoom(ChosenZoom(d), |d.levels|).value] == PyIndex(d.levels, ChosenZoom(d))
    ensures |d.levels| == 1 ==> NormalizeZoom(ChosenZoom(d), 1) == Ok(0)
  {
    var n, z := |d.levels|, ChosenZoom(d);
    if n >= 2 {
      NormalizeZoomAgreesWithIndex(d.levels, z);
    } else {
      assert -2 <= z <= 0;
    }
  }

  /**
   * With two levels both too large for JPEG, the second decrement reaches
   * -1, which Python reads as the top level: `load_tiles` then downloads
   * the top level the downgrade meant to avoid.
   */
  lemma TwoLevelDowngradeWraps(d: Descriptor)
    requires |d.levels| == 2 && TooLarge(d, 1) && TooLarge(d, 0)
    ensures ChosenZoom(d) == -1
    ensures NormalizeZoom(ChosenZoom(d), 2) == Ok(1) && NeedsPng(Size(d, d.levels[1]))
  {
  }

  /** The two guarded decrements; `None` is the `IndexError` of `tile_info[-1]` with no levels. */
  method ChooseZoom(d: Descriptor) returns (r: Option<int>)
    ensures r.None? <==> d.levels == []
    ensures r.Some? ==> r.value == ChosenZoom(d)
  {
    if d.levels == [] {
      return None;
    }
    var zoom := |d.levels| - 1;
    if NeedsPng(Size(d, PyIndex(d.levels, zoom))) {
      zoom := zoom - 1;
    }
    if NeedsPng(Size(d, PyIndex(d.levels, zoom))) {
      zoom := zoom - 1;
    }
    return Some(zoom);
  }

  // ---------------------------------------------------------------------
  // The download walk

  /** The ids of the rows not yet downloaded, in row order. */
  function Pending(t: Table): (ids: seq<string>)
    requires t.Valid()
    ensures forall k :: k in ids <==> k in t.rows && !t.rows[k].downloaded
    ensures forall i, j :: 0 <= i < j < |ids| ==> ids[i] != ids[j]
    ensures Subsequence(ids, t.order)
    ensures (forall k :: k in t.rows ==> t.rows[k].downloaded) ==> ids == []
  {
    PendingOf(t, t.order)
  }

  function PendingOf(t: Table, keys: seq<string>): (ids: seq<string>)
    requires forall k :: k in keys ==> k in t.rows
    requires forall i, j :: 0 <= i < j < |keys| ==> keys[i] != keys[j]
    ensures forall k :: k in ids <==> k in keys && !t.rows[k].downloaded
    ensures forall i, j :: 0 <= i < j < |ids| ==> ids[i] != ids[j]
    ensures Subsequence(ids, keys)
    ensures (forall k :: k in keys ==> t.rows[k].downloaded) ==> ids == []
    decreases |keys|
  {
    if keys == [] then []
    else
      var rest := PendingOf(t, keys[1..]);
      assert forall k :: k in keys[1..] ==> k in keys;
      if t.rows[keys[0]].downloaded then rest
      else
        assert ([keys[0]] + rest)[1..] == rest;
        [keys[0]] + rest
  }

  /** `a` is `b` with some elements left out: its elements appear in `b` in the same order. */
  ghost predicate Subsequence<T>(a: seq<T>, b: seq<T>)
    decreases |b|
  {
    a == [] || (b != [] && ((a[0] == b[0] && Subsequence(a[1..], b[1..])) || Subsequence(a, b[1..])))
  }

  /**
   * Whether the loop body returns normally for a row holding `url` and
   * `quality`: the quality assertion holds, `ImageInfo(url)` is built, its
   * descriptor has levels, and `load_tiles(info, zoom, quality=…)` returns
   * at the chosen zoom. Any other outcome raises and ends the walk.
   */
  predicate Loads(url: string, quality: int, q: int, resolve: string -> Option<ImageInfo>,
                  load: (ImageInfo, int, int) -> bool)
  {
    && QualityOk(q)
    && resolve(url).Some?
    && resolve(url).value.pyramid.levels != []
    && load(resolve(url).value, ChosenZoom(resolve(url).value.pyramid), quality)
  }

  /**
   * The row pandas appends when `df.at` sets a label the table does not
   * hold: `downloaded` is true and the other cells are NaN, written here
   * as "" and 0.
   */
  const MarkedRow: Entry := Entry("", 0, true)

  /**
   * `df.at[k, "downloaded"] = True`: the row `k` is marked downloaded, or,
   * when there is no row `k`, one is appended already marked.
   */
  function Mark(t: Table, k: string): (r: Table)
    ensures t.Valid() ==> r.Valid()
    ensures r.rows.Keys == t.rows.Keys + {k} && r.rows[k].downloaded
    ensures k in t.rows ==> r.order == t.order && r.rows[k] == t.rows[k].(downloaded := true)
    ensures k !in t.rows ==> r.order == t.order + [k] && r.rows[k] == MarkedRow
    ensures forall j :: j in t.rows && j != k ==> r.rows[j] == t.rows[j]
  {
    if k in t.rows then Table(t.order, t.rows[k := t.rows[k].(downloaded := true)])
    else Table(t.order + [k], t.rows[k := MarkedRow])
  }

  /**
   * The loop body for row `id`: `None` when it raises, otherwise the table
   * with the row of the id `ImageInfo` read from the URL marked, which is
   * not always `id` itself.
   */
  function Step(t: Table, id: string, q: int, resolve: string -> Option<ImageInfo>,
                load: (ImageInfo, int, int) -> bool): Option<Table>
    requires id in t.rows
  {
    var e := t.rows[id];
    if Loads(e.url, e.quality, q, resolve, load) then Some(Mark(t, resolve(e.url).value.id)) else None
  }

  /**
   * The walk over `ids`, stopping at the first row whose body raises; the
   * flag says whether it finished. Rows are only ever marked or appended,
   * never removed, and no row's URL or quality changes.
   */
  function Visit(t: Table, ids: seq<string>, q: int, resolve: string -> Option<ImageInfo>,
                 load: (ImageInfo, int, int) -> bool): (r: (Table, bool))
    requires forall k :: k in ids ==> k in t.rows
    ensures t.order <= r.0.order && t.rows.Keys <= r.0.rows.Keys
    ensures forall k :: k in t.rows ==> r.0.rows[k].url == t.rows[k].url && r.0.rows[k].quality == t.rows[k].quality
    decreases |ids|
  {
    if ids == [] then (t, true)
    else
      match Step(t, ids[0], q, resolve, load)
      case None => (t, false)
      case Some(t1) => Visit(t1, ids[1..], q, resolve, load)
  }

  /**
   * The walk changes only the `downloaded` flag of existing rows and
   * appends only rows already marked; every row it changes or appends
   * carries the id `ImageInfo` resolved for a visited row whose
   * `load_tiles` returned normally.
   */
  lemma {:induction false} VisitMarksOnlyLoaded(t: Table, ids: seq<string>, q: int,
                                               resolve: string -> Option<ImageInfo>,
                                               load: (ImageInfo, int, int) -> bool, k: string)
    requires forall k :: k in ids ==> k in t.rows
    ensures var r := Visit(t, ids, q, resolve, load).0;
      && (k in t.rows ==> r.rows[k] == t.rows[k] || r.rows[k] == t.rows[k].(downloaded := true))
      && (k in r.rows && k !in t.rows ==> r.rows[k] == MarkedRow)
      && (k in r.rows && (k !in t.rows || r.rows[k] != t.rows[k]) ==>
            exists j :: j in ids && Loads(t.rows[j].url, t.rows[j].quality, q, resolve, load) &&
                        resolve(t.rows[j].url).value.id == k)
    decreases |ids|
  {
    if ids != [] {
      var s := Step(t, ids[0], q, resolve, load);
      if s.Some? {
        var t1, e := s.value, t.rows[ids[0]];
        var marked := resolve(e.url).value.id;
        VisitMarksOnlyLoaded(t1, ids[1..], q, resolve, load, k);
        var r := Visit(t1, ids[1..], q, resolve, load).0;
        assert r == Visit(t, ids, q, resolve, load).0;
        if k in r.rows && (k !in t.rows || r.rows[k] != t.rows[k]) {
          if k == marked {
            assert ids[0] in ids;
          } else {
            assert k in t1.rows <==> k in t.rows;
            var j :| j in ids[1..] && Loads(t1.rows[j].url, t1.rows[j].quality, q, resolve, load) &&
                     resolve(t1.rows[j].url).value.id == k;
            assert j in ids && t1.rows[j].url == t.rows[j].url && t1.rows[j].quality == t.rows[j].quality;
          }
        }
      }
    }
  }

  /**
   * A walk that finishes loaded every row it visited and marked the row of
   * each one's resolved id.
   */
  lemma {:induction false} VisitMarksAll(t: Table, ids: seq<string>, q: int,
                                        resolve: string -> Option<ImageInfo>,
                                        load: (ImageInfo, int, int) -> bool)
    requires forall k :: k in ids ==> k in t.rows
    requires Visit(t, ids, q, resolve, load).1
    ensures var r := Visit(t, ids, q, resolve, load).0;
      forall j :: j in ids ==>
        && Loads(t.rows[j].url, t.rows[j].quality, q, resolve, load)
        && resolve(t.rows[j].url).value.id in r.rows
        && r.rows[resolve(t.rows[j].url).value.id].downloaded
    decreases |ids|
  {
    if ids != [] {
      var t1 := Step(t, ids[0], q, resolve, load).value;
      var r := Visit(t1, ids[1..], q, resolve, load).0;
      VisitMarksAll(t1, ids[1..], q, resolve, load);
      VisitKeepsMarks(t1, ids[1..], q, resolve, load, resolve(t.rows[ids[0]].url).value.id);
      forall j | j in ids[1..]
        ensures t1.rows[j].url == t.rows[j].url && t1.rows[j].quality == t.rows[j].quality
      {
      }
    }
  }

  /** A row once marked stays marked. */
  lemma VisitKeepsMarks(t: Table, ids: seq<string>, q: int, resolve: string -> Option<ImageInfo>,
                        load: (ImageInfo, int, int) -> bool, k: string)
    requires forall k :: k in ids ==> k in t.rows
    requires k in t.rows && t.rows[k].downloaded
    ensures Visit(t, ids, q, resolve, load).0.rows[k].downloaded
  {
    VisitMarksOnlyLoaded(t, ids, q, resolve, load, k);
  }

  lemma VisitCons(t: Table, ids: seq<string>, q: int, resolve: string -> Option<ImageInfo>,
                  load: (ImageInfo, int, int) -> bool)
    requires ids != [] && forall k :: k in ids ==> k in t.rows
    ensures Step(t, ids[0], q, resolve, load).None? ==> Visit(t, ids, q, resolve, load) == (t, false)
    ensures Step(t, ids[0], q, resolve, load).Some? ==>
      Visit(t, ids, q, resolve, load) == Visit(Step(t, ids[0], q, resolve, load).value, ids[1..], q, resolve, load)
  {
  }

  /** The walk keeps the table well formed. */
  lemma {:induction false} VisitValid(t: Table, ids: seq<string>, q: int, resolve: string -> Option<ImageInfo>,
                                     load: (ImageInfo, int, int) -> bool)
    requires t.Valid() && forall k :: k in ids ==> k in t.rows
    ensures Visit(t, ids, q, resolve, load).0.Valid()
    decreases |ids|
  {
    if ids != [] {
      var s := Step(t, ids[0], q, resolve, load);
      if s.Some? {
        VisitValid(s.value, ids[1..], q, resolve, load);
      }
    }
  }

  /**
   * After a finished walk over the pending rows, a row is still pending
   * only when it was pending before, was loaded, and its image was
   * recorded under a different id.
   */
  lemma NothingPendingAfterWalk(t: Table, q: int, resolve: string -> Option<ImageInfo>,
                                load: (ImageInfo, int, int) -> bool)
    requires t.Valid() && Visit(t, Pending(t), q, resolve, load).1
    ensures Visit(t, Pending(t), q, resolve, load).0.Valid()
    ensures forall k :: k in Pending(Visit(t, Pending(t), q, resolve, load).0) ==>
      && k in Pending(t)
      && Loads(t.rows[k].url, t.rows[k].quality, q, resolve, load)
      && resolve(t.rows[k].url).value.id != k
  {
    var ids := Pending(t);
    var r := Visit(t, ids, q, resolve, load).0;
    VisitValid(t, ids, q, resolve, load);
    VisitMarksAll(t, ids, q, resolve, load);
    forall k | k in Pending(r)
      ensures k in ids && resolve(t.rows[k].url).value.id != k
    {
      VisitMarksOnlyLoaded(t, ids, q, resolve, load, k);
    }
  }

  /** Every row's URL resolves, if at all, to an `ImageInfo` whose id is the row's own. */
  ghost predicate KeyedByImageId(t: Table, resolve: string -> Option<ImageInfo>)
  {
    forall k :: k in t.rows && resolve(t.rows[k].url).Some? ==> resolve(t.rows[k].url).value.id == k
  }

  /** When every row is keyed by its image's own id, a finished walk leaves no row pending. */
  lemma NothingPendingWhenKeyedById(t: Table, q: int, resolve: string -> Option<ImageInfo>,
                                    load: (ImageInfo, int, int) -> bool)
    requires t.Valid() && KeyedByImageId(t, resolve)
    requires Visit(t, Pending(t), q, resolve, load).1
    ensures Visit(t, Pending(t), q, resolve, load).0.Valid()
    ensures Pending(Visit(t, Pending(t), q, resolve, load).0) == []
  {
    NothingPendingAfterWalk(t, q, resolve, load);
  }

  /**
   * A row queued under `key` whose URL resolves to an `ImageInfo` with
   * another id (the key is taken from the URL as written, the id from its
   * path, so a query string is enough): the walk appends a new marked row
   * under that id, and the visited row stays pending, so the next run
   * visits it again.
   */
  lemma MarkedUnderOtherId(key: string, u: string, quality: int, q: int, resolve: string -> Option<ImageInfo>,
                           load: (ImageInfo, int, int) -> bool)
    requires Loads(u, quality, q, resolve, load)
    requires resolve(u).value.id != key
    ensures var other := resolve(u).value.id;
      var t := Table([key], map[key := Entry(u, quality, false)]);
      var r := Visit(t, [key], q, resolve, load);
      && Pending(t) == [key]
      && r == (Table([key, other], map[key := Entry(u, quality, false), other := MarkedRow]), true)
      && Pending(r.0) == [key]
  {
    var other := resolve(u).value.id;
    var t := Table([key], map[key := Entry(u, quality, false)]);
    var r := Mark(t, other);
    assert t.rows[key] == Entry(u, quality, false);
    assert Step(t, key, q, resolve, load) == Some(r);
    assert [key][1..] == [];
    assert Visit(t, [key], q, resolve, load) == Visit(r, [], q, resolve, load);
    assert r.order == [key, other];
    assert r.rows == map[key := Entry(u, quality, false), other := MarkedRow];
    assert Pending(r) == [key];
  }

  /** A URL with a query string: the queue key keeps it, the id read from the path does not. */
  lemma QueryStringIds()
    ensures ImageIdOf("s/I?h") == "I?h"
    ensures SlugAndId("s/I") == Some(("s", "I"))
  {
    assert Find("s/I", '/') == 1 && Find("I", '/') == -1;
    assert Split("I", '/') == ["I"];
    assert "s/I"[..1] == "s" && "s/I"[2..] == "I";
    assert Split("s/I", '/') == ["s", "I"];
  }

  // ---------------------------------------------------------------------
  // The queue in memory and a run of the driver

  /** The `df` table the driver updates in place. */
  class Queue {
    var order: seq<string>
    var rows: map<string, Entry>

    function State(): Table
      reads this
    {
      Table(order, rows)
    }

    ghost predicate Valid()
      reads this
    {
      State().Valid()
    }

    /** The table read from `dlcache`, or a new empty one. */
    constructor (cache: Table)
      requires cache.Valid()
      ensures Valid() && State() == cache
    {
      order, rows := cache.order, cache.rows;
    }

    /**
     * The body of the `--batch-add` loop for one URL, whose id `idOf`
     * extracts; `ok` is false when the quality assertion fails.
     */
    method AddRow(idOf: string -> string, u: string, q: int) returns (ok: bool)
      requires Valid()
      modifies this
      ensures Valid()
      ensures (State(), ok) == AddOne(idOf, old(State()), u, q)
    {
      AddOneKeeps(idOf, State(), u, q);
      var id := idOf(u);
      if id in rows {
        return true;
      }
      if !QualityOk(q) {
        return false;
      }
      order, rows := order + [id], rows[id := Entry(u, q, false)];
      return true;
    }

    /** The `--batch-add` loop; `ok` is false when the quality assertion fails. */
    method AddUrls(urls: seq<string>, q: int) returns (ok: bool)
      requires Valid()
      modifies this
      ensures Valid()
      ensures (State(), ok) == AddAll(ImageIdOf, old(State()), urls, q)
    {
      ghost var t0 := State();
      ok := true;
      var i := 0;
      while i < |urls| && ok
        invariant 0 <= i <= |urls|
        invariant Valid()
        invariant ok ==> AddAll(ImageIdOf, t0, urls, q) == AddAll(ImageIdOf, State(), urls[i..], q)
        invariant !ok ==> AddAll(ImageIdOf, t0, urls, q) == (State(), false)
      {
        ok := AddRow(ImageIdOf, urls[i], q);
        assert urls[i..][0] == urls[i] && urls[i..][1..] == urls[i + 1..];
        i := i + 1;
      }
    }

    /** `df.at[k, "downloaded"] = True` */
    method MarkDownloaded(k: string)
      modifies this
      ensures State() == Mark(old(State()), k)
    {
      if k in rows {
        rows := rows[k := rows[k].(downloaded := true)];
      } else {
        order, rows := order + [k], rows[k := MarkedRow];
      }
    }

    /** The body of the `--download` loop for row `id`; `ok` is false when it raises. */
    method VisitRow(id: string, q: int, resolve: string -> Option<ImageInfo>, load: (ImageInfo, int, int) -> bool)
      returns (ok: bool)
      requires id in rows
      modifies this
      ensures old(rows).Keys <= rows.Keys
      ensures ok ==> Step(old(State()), id, q, resolve, load) == Some(State())
      ensures !ok ==> Step(old(State()), id, q, resolve, load).None? && State() == old(State())
    {
      var e := rows[id];
      var info := resolve(e.url);
      if !QualityOk(q) || info.None? {
        return false;
      }
      var zoom := ChooseZoom(info.value.pyramid);
      if zoom.None? || !load(info.value, zoom.value, e.quality) {
        return false;
      }
      MarkDownloaded(info.value.id);
      return true;
    }

    /** The `--download` loop over a snapshot of the pending rows; `completed` is false when a row's body raises. */
    method DownloadPending(q: int, resolve: string -> Option<ImageInfo>, load: (ImageInfo, int, int) -> bool)
      returns (completed: bool)
      requires Valid()
      modifies this
      ensures Valid()
      ensures (State(), completed) == Visit(old(State()), Pending(old(State())), q, resolve, load)
    {
      ghost var t0 := State();
      var pending := Pending(State());
      completed := true;
      var i := 0;
      while i < |pending| && completed
        invariant 0 <= i <= |pending|
        invariant forall k :: k in pending ==> k in rows
        invariant completed ==> Visit(t0, pending, q, resolve, load) == Visit(State(), pending[i..], q, resolve, load)
        invariant !completed ==> Visit(t0, pending, q, resolve, load) == (State(), false)
      {
        var id := pending[i];
        ghost var t := State();
        completed := VisitRow(id, q, resolve, load);
        VisitCons(t, pending[i..], q, resolve, load);
        assert pending[i..][0] == id && pending[i..][1..] == pending[i + 1..];
        i := i + 1;
      }
      VisitValid(old(State()), pending, q, resolve, load);
    }
  }

  /**
   * What one run writes to `dlcache`: the updated table when every step
   * returns normally; `None` when an exception ends the run before the
   * write, so the file keeps what it held.
   */
  function Session(cache: Table, batch: Option<seq<string>>, q: int, download: bool,
                   resolve: string -> Option<ImageInfo>, load: (ImageInfo, int, int) -> bool): Option<Table>
    requires cache.Valid()
  {
    var (t1, added) := if batch.Some? then AddAll(ImageIdOf, cache, batch.value, q) else (cache, true);
    if !added then None
    else if !download then Some(t1)
    else
      AddAllKeeps(ImageIdOf, cache, if batch.Some? then batch.value else [], q);
      var (t2, completed) := Visit(t1, Pending(t1), q, resolve, load);
      if completed then Some(t2) else None
  }

  /**
   * A run that writes the cache keeps every row it read, holds a row for
   * every URL of the batch, and, when it downloaded, leaves pending only
   * rows whose image was recorded under another id; none when every row is
   * keyed by its image's own id.
   */
  lemma SessionWrites(cache: Table, batch: Option<seq<string>>, q: int, download: bool,
                      resolve: string -> Option<ImageInfo>, load: (ImageInfo, int, int) -> bool)
    requires cache.Valid()
    requires Session(cache, batch, q, download, resolve, load).Some?
    ensures var saved := Session(cache, batch, q, download, resolve, load).value;
      && saved.Valid()
      && (forall k :: k in cache.rows ==> k in saved.rows && saved.rows[k].url == cache.rows[k].url)
      && (batch.Some? ==> forall i :: 0 <= i < |batch.value| ==> ImageIdOf(batch.value[i]) in saved.rows)
      && (download ==> forall k :: k in Pending(saved) ==>
            && Loads(saved.rows[k].url, saved.rows[k].quality, q, resolve, load)
            && resolve(saved.rows[k].url).value.id != k)
      && (download && KeyedByImageId(saved, resolve) ==> Pending(saved) == [])
  {
    var urls := if batch.Some? then batch.value else [];
    var t1 := if batch.Some? then AddAll(ImageIdOf, cache, urls, q).0 else cache;
    if batch.Some? {
      AddAllKeeps(ImageIdOf, cache, urls, q);
      AddAllCovers(ImageIdOf, cache, urls, q);
    }
    if download {
      NothingPendingAfterWalk(t1, q, resolve, load);
      var t2 := Visit(t1, Pending(t1), q, resolve, load).0;
    }
  }

  /** One run of the driver on the table read from `dlcache`. */
  method RunSession(cache: Table, batch: Option<seq<string>>, q: int, download: bool,
                    resolve: string -> Option<ImageInfo>, load: (ImageInfo, int, int) -> bool)
    returns (written: Option<Table>)
    requires cache.Valid()
    ensures written == Session(cache, batch, q, download, resolve, load)
  {
    var queue := new Queue(cache);
    if batch.Some? {
      var added := queue.AddUrls(batch.value, q);
      if !added {
        return None;
      }
    }
    if download {
      var completed := queue.DownloadPending(q, resolve, load);
      if !completed {
        return None;
      }
    }
    written := Some(queue.State());
  }
}
