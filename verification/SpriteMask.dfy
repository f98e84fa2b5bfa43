/**
 * The sprite keying script: a mask of opaque pixels is eroded once and dilated twice, all on
 * flat row-major buffers, and then decides which pixels of the picture survive. Which colours
 * are keyed opaque is a parameter.
 */
module SpriteMask {
  type Byte = x: int | 0 <= x < 256

  // ---------- row-major buffers ----------

  /** The place of pixel (x, y) in a buffer of w * h cells. */
  function At(w: nat, h: nat, x: nat, y: nat): (i: nat)
    requires x < w && y < h
    ensures i < w * h
  {
    RowsBelow(w, y, h);
    y * w + x
  }

  lemma {:induction false} RowsBelow(w: nat, y: nat, h: nat)
    requires y < h
    ensures y * w + w <= h * w
  {
    if h != y + 1 {
      RowsBelow(w, y, h - 1);
    }
  }

  /** No two pixels share a cell, so a row never runs over into the next one. */
  lemma {:induction false} AtIsInjective(w: nat, h: nat, x: nat, y: nat, x': nat, y': nat)
    requires x < w && y < h && x' < w && y' < h
    ensures At(w, h, x, y) == At(w, h, x', y') <==> x == x' && y == y'
  {
    if y < y' {
      RowsBelow(w, y, y');
    } else if y' < y {
      RowsBelow(w, y', y);
    }
  }

  lemma RowAndColumn(w: nat, h: nat, i: nat)
    requires i < w * h
    ensures w != 0 && i % w < w && i / w < h && At(w, h, i % w, i / w) == i
  {
    if h <= i / w {
      if h < i / w {
        RowsBelow(w, h, i / w);
      }
      assert false;
    }
  }

  /** Whether pixel (x, y) is on; nothing outside the picture is. */
  predicate On(m: seq<bool>, w: nat, h: nat, x: int, y: int)
    requires |m| == w * h
  {
    0 <= x < w && 0 <= y < h && m[At(w, h, x, y)]
  }

  predicate Interior(w: nat, h: nat, x: int, y: int) {
    1 <= x < w - 1 && 1 <= y < h - 1
  }

  /** The mask with exactly the given pixels on. */
  function Raster(w: nat, h: nat, pixel: (int, int) -> bool): (m: seq<bool>)
    ensures |m| == w * h
  {
    if w == 0 then [] else seq(w * h, i => pixel(i % w, i / w))
  }

  lemma {:induction false} RasterPixels(w: nat, h: nat, pixel: (int, int) -> bool, x: int, y: int)
    ensures On(Raster(w, h, pixel), w, h, x, y) <==> 0 <= x < w && 0 <= y < h && pixel(x, y)
  {
    if 0 <= x < w && 0 <= y < h {
      var i := At(w, h, x, y);
      RowAndColumn(w, h, i);
      AtIsInjective(w, h, x, y, i % w, i / w);
    }
  }

  /** A mask is known once its pixels are. */
  lemma SamePixelsSameMask(a: seq<bool>, b: seq<bool>, w: nat, h: nat)
    requires |a| == w * h && |b| == w * h
    requires forall x, y :: On(a, w, h, x, y) <==> On(b, w, h, x, y)
    ensures a == b
  {
    forall i | 0 <= i < w * h ensures a[i] == b[i] {
      RowAndColumn(w, h, i);
      assert On(a, w, h, i % w, i / w) <==> On(b, w, h, i % w, i / w);
    }
  }

  // ---------- what the passes mean ----------

  /** Some pixel within Chebyshev distance r of (x, y) is on. */
  ghost predicate Near(m: seq<bool>, w: nat, h: nat, x: int, y: int, r: nat)
    requires |m| == w * h
  {
    exists a, b :: x - r <= a <= x + r && y - r <= b <= y + r && On(m, w, h, a, b)
  }

  /** The pixels around (x, y) that are on, itself left out. */
  ghost function Neighbours(m: seq<bool>, w: nat, h: nat, x: int, y: int): set<(int, int)>
    requires |m| == w * h
  {
    set a, b | x - 1 <= a <= x + 1 && y - 1 <= b <= y + 1 && (a, b) != (x, y) && On(m, w, h, a, b) :: (a, b)
  }

  ghost predicate Survives(m: seq<bool>, w: nat, h: nat, x: int, y: int, minNeighbors: int)
    requires |m| == w * h
  {
    Interior(w, h, x, y) && On(m, w, h, x, y) && |Neighbours(m, w, h, x, y)| >= minNeighbors
  }

  ghost function Eroded(m: seq<bool>, w: nat, h: nat, minNeighbors: int): (e: seq<bool>)
    requires |m| == w * h
    ensures |e| == w * h
  {
    Raster(w, h, (x, y) => Survives(m, w, h, x, y, minNeighbors))
  }

  ghost function Dilated(m: seq<bool>, w: nat, h: nat): (d: seq<bool>)
    requires |m| == w * h
    ensures |d| == w * h
  {
    Raster(w, h, (x, y) => Interior(w, h, x, y) && Near(m, w, h, x, y, 1))
  }

  lemma {:induction false} ErodedPixels(m: seq<bool>, w: nat, h: nat, minNeighbors: int, x: int, y: int)
    requires |m| == w * h
    ensures On(Eroded(m, w, h, minNeighbors), w, h, x, y) <==> Survives(m, w, h, x, y, minNeighbors)
  {
    RasterPixels(w, h, (x, y) => Survives(m, w, h, x, y, minNeighbors), x, y);
  }

  lemma {:induction false} DilatedPixels(m: seq<bool>, w: nat, h: nat, x: int, y: int)
    requires |m| == w * h
    ensures On(Dilated(m, w, h), w, h, x, y) <==> Interior(w, h, x, y) && Near(m, w, h, x, y, 1)
  {
    RasterPixels(w, h, (x, y) => Interior(w, h, x, y) && Near(m, w, h, x, y, 1), x, y);
  }

  /** A number within 1 of both ends of a stretch of length at most 2: its start, or properly inside. */
  function Between(a: int, b: int): (m: int)
    requires -2 <= a - b <= 2
    ensures -1 <= m - a <= 1 && -1 <= m - b <= 1
    ensures m == a || a < m < b || b < m < a
  {
    if b == a + 2 then a + 1 else if b == a - 2 then a - 1 else a
  }

  /**
   * Two dilations in one formula. The step through the inner mask loses nothing at the edges,
   * although the first dilation leaves the border pixels off.
   */
  lemma {:induction false} TwoDilations(m: seq<bool>, w: nat, h: nat, x: int, y: int)
    requires |m| == w * h
    ensures On(Dilated(Dilated(m, w, h), w, h), w, h, x, y) <==> Interior(w, h, x, y) && Near(m, w, h, x, y, 2)
  {
    var d := Dilated(m, w, h);
    DilatedPixels(d, w, h, x, y);
    if Interior(w, h, x, y) && Near(d, w, h, x, y, 1) {
      var a, b :| x - 1 <= a <= x + 1 && y - 1 <= b <= y + 1 && On(d, w, h, a, b);
      DilatedPixels(m, w, h, a, b);
    }
    if Interior(w, h, x, y) && Near(m, w, h, x, y, 2) {
      var a, b :| x - 2 <= a <= x + 2 && y - 2 <= b <= y + 2 && On(m, w, h, a, b);
      var a', b' := Between(x, a), Between(y, b);
      assert a' - 1 <= a <= a' + 1 && b' - 1 <= b <= b' + 1;
      DilatedPixels(m, w, h, a', b');
    }
  }

  // ---------- the whole pipeline ----------

  const MIN_NEIGHBORS := 5

  ghost function Pipeline(m: seq<bool>, w: nat, h: nat): (p: seq<bool>)
    requires |m| == w * h
    ensures |p| == w * h
  {
    Dilated(Dilated(Eroded(m, w, h, MIN_NEIGHBORS), w, h), w, h)
  }

  ghost predicate SurvivorNear(m: seq<bool>, w: nat, h: nat, x: int, y: int)
    requires |m| == w * h
  {
    exists a, b :: x - 2 <= a <= x + 2 && y - 2 <= b <= y + 2 && Survives(m, w, h, a, b, 5)
  }

  /** The eight places around (x, y). */
  function Around(x: int, y: int): set<(int, int)> {
    {(x - 1, y - 1), (x, y - 1), (x + 1, y - 1), (x - 1, y), (x + 1, y), (x - 1, y + 1), (x, y + 1), (x + 1, y + 1)}
  }

  /** A pixel survives erosion off the border, with itself on and at least five of the eight around it. */
  lemma SurvivalMeaning(m: seq<bool>, w: nat, h: nat, x: int, y: int)
    requires |m| == w * h
    ensures Survives(m, w, h, x, y, 5) <==>
      && 0 < x < w - 1 && 0 < y < h - 1 && On(m, w, h, x, y)
      && |set p | p in Around(x, y) && On(m, w, h, p.0, p.1)| >= 5
  {
    assert Neighbours(m, w, h, x, y) == set p | p in Around(x, y) && On(m, w, h, p.0, p.1);
  }

  ghost predicate Within(a: seq<bool>, b: seq<bool>, w: nat, h: nat)
    requires |a| == w * h && |b| == w * h
  {
    forall x, y :: On(a, w, h, x, y) ==> On(b, w, h, x, y)
  }

  /** What the pipeline leaves on: inner pixels within distance 2 of a pixel that survived erosion. */
  lemma {:induction false} PipelineMeaning(m: seq<bool>, w: nat, h: nat, x: int, y: int)
    requires |m| == w * h
    ensures On(Pipeline(m, w, h), w, h, x, y) <==> 0 < x < w - 1 && 0 < y < h - 1 && SurvivorNear(m, w, h, x, y)
  {
    var e := Eroded(m, w, h, MIN_NEIGHBORS);
    TwoDilations(e, w, h, x, y);
    forall a, b ensures On(e, w, h, a, b) <==> Survives(m, w, h, a, b, MIN_NEIGHBORS) {
      ErodedPixels(m, w, h, MIN_NEIGHBORS, a, b);
    }
  }

  lemma {:induction false} ErosionOnlyRemoves(m: seq<bool>, w: nat, h: nat, minNeighbors: int)
    requires |m| == w * h
    ensures Within(Eroded(m, w, h, minNeighbors), m, w, h)
  {
    forall x, y | On(Eroded(m, w, h, minNeighbors), w, h, x, y) ensures On(m, w, h, x, y) {
      ErodedPixels(m, w, h, minNeighbors, x, y);
    }
  }

  lemma SurvivalIsMonotone(m: seq<bool>, n: seq<bool>, w: nat, h: nat, x: int, y: int, minNeighbors: int)
    requires |m| == w * h && |n| == w * h && Within(m, n, w, h)
    ensures Survives(m, w, h, x, y, minNeighbors) ==> Survives(n, w, h, x, y, minNeighbors)
  {
    SubsetIsNoLarger(Neighbours(m, w, h, x, y), Neighbours(n, w, h, x, y));
  }

  lemma {:induction false} SubsetIsNoLarger<T>(a: set<T>, b: set<T>)
    requires a <= b
    ensures |a| <= |b|
  {
    assert b == a + (b - a);
  }

  /** More pixels in, more pixels out: no pixel goes off because another one came on. */
  lemma {:induction false} PipelineIsMonotone(m: seq<bool>, n: seq<bool>, w: nat, h: nat)
    requires |m| == w * h && |n| == w * h && Within(m, n, w, h)
    ensures Within(Pipeline(m, w, h), Pipeline(n, w, h), w, h)
  {
    forall x, y | On(Pipeline(m, w, h), w, h, x, y) ensures On(Pipeline(n, w, h), w, h, x, y) {
      PipelineMeaning(m, w, h, x, y);
      PipelineMeaning(n, w, h, x, y);
      var a, b :| x - 2 <= a <= x + 2 && y - 2 <= b <= y + 2 && Survives(m, w, h, a, b, MIN_NEIGHBORS);
      SurvivalIsMonotone(m, n, w, h, a, b, MIN_NEIGHBORS);
    }
  }

  /** The two dilations bring back at least what erosion left. */
  lemma {:induction false} PipelineContainsEroded(m: seq<bool>, w: nat, h: nat)
    requires |m| == w * h
    ensures Within(Eroded(m, w, h, MIN_NEIGHBORS), Pipeline(m, w, h), w, h)
  {
    forall x, y | On(Eroded(m, w, h, MIN_NEIGHBORS), w, h, x, y) ensures On(Pipeline(m, w, h), w, h, x, y) {
      ErodedPixels(m, w, h, MIN_NEIGHBORS, x, y);
      PipelineMeaning(m, w, h, x, y);
      assert Survives(m, w, h, x, y, MIN_NEIGHBORS);
    }
  }

  // ---------- the passes as loops ----------

  /** Neighbours that the scan has met before column k of row j (of the three around (x, y)). */
  ghost predicate Met(x: int, y: int, j: int, k: int, a: int, b: int) {
    b < y + j - 1 || (b == y + j - 1 && a < x + k - 1)
  }

  ghost function MetOf(s: set<(int, int)>, x: int, y: int, j: int, k: int): set<(int, int)> {
    set p | p in s && Met(x, y, j, k, p.0, p.1)
  }

  ghost function MetNeighbours(m: seq<bool>, w: nat, h: nat, x: int, y: int, j: int, k: int): set<(int, int)>
    requires |m| == w * h
  {
    MetOf(Neighbours(m, w, h, x, y), x, y, j, k)
  }

  /** The three row offsets of a neighbourhood, in scan order. */
  function RowOffset(w: nat, j: int): int {
    if j == 0 then 0 - w else if j == 1 then 0 else w
  }

  /** One step of the scan around an inner pixel: the cell read is a real pixel, in the row meant. */
  lemma ScanStep(m: seq<bool>, w: nat, h: nat, x: int, y: int, j: int, k: int)
    requires |m| == w * h && Interior(w, h, x, y) && 0 <= j < 3 && 0 <= k < 3
    ensures var i := At(w, h, x, y) + RowOffset(w, j) + (k - 1);
      && i == At(w, h, x + k - 1, y + j - 1)
      && (m[i] <==> On(m, w, h, x + k - 1, y + j - 1))
  {
  }

  lemma NeighbourIsOn(m: seq<bool>, w: nat, h: nat, x: int, y: int, a: int, b: int)
    requires |m| == w * h && x - 1 <= a <= x + 1 && y - 1 <= b <= y + 1
    ensures (a, b) in Neighbours(m, w, h, x, y) <==> (a, b) != (x, y) && On(m, w, h, a, b)
  {
  }

  lemma CountStep(m: seq<bool>, w: nat, h: nat, x: int, y: int, j: int, k: int)
    requires |m| == w * h && 0 <= j < 3 && 0 <= k < 3
    ensures |MetNeighbours(m, w, h, x, y, j, k + 1)|
         == |MetNeighbours(m, w, h, x, y, j, k)|
          + if !(j == 1 && k == 1) && On(m, w, h, x + k - 1, y + j - 1) then 1 else 0
  {
    NeighbourIsOn(m, w, h, x, y, x + k - 1, y + j - 1);
    AddOne(Neighbours(m, w, h, x, y), x, y, j, k);
  }

  lemma AddOne(s: set<(int, int)>, x: int, y: int, j: int, k: int)
    ensures |MetOf(s, x, y, j, k + 1)|
         == |MetOf(s, x, y, j, k)| + if (x + k - 1, y + j - 1) in s then 1 else 0
  {
    var p := (x + k - 1, y + j - 1);
    if p in s {
      assert MetOf(s, x, y, j, k + 1) == MetOf(s, x, y, j, k) + {p};
    } else {
      assert MetOf(s, x, y, j, k + 1) == MetOf(s, x, y, j, k);
    }
  }

  lemma NextRow(m: seq<bool>, w: nat, h: nat, x: int, y: int, j: int)
    requires |m| == w * h
    ensures MetNeighbours(m, w, h, x, y, j, 3) == MetNeighbours(m, w, h, x, y, j + 1, 0)
    ensures MetNeighbours(m, w, h, x, y, 0, 0) == {}
    ensures MetNeighbours(m, w, h, x, y, 3, 0) == Neighbours(m, w, h, x, y)
  {
  }

  /** The neighbour count of one pixel: rows -w, 0, +w around its cell, columns -1, 0, +1. */
  method CountNeighbors(mask: array<bool>, w: nat, h: nat, x: nat, y: nat) returns (cnt: nat)
    requires mask.Length == w * h && Interior(w, h, x, y)
    ensures cnt == |Neighbours(mask[..], w, h, x, y)|
  {
    cnt := 0;
    var i := At(w, h, x, y);
    NextRow(mask[..], w, h, x, y, 0);
    for j := 0 to 3
      invariant cnt == |MetNeighbours(mask[..], w, h, x, y, j, 0)|
    {
      for k := 0 to 3
        invariant cnt == |MetNeighbours(mask[..], w, h, x, y, j, k)|
      {
        CountStep(mask[..], w, h, x, y, j, k);
        ScanStep(mask[..], w, h, x, y, j, k);
        var dy, dx := RowOffset(w, j), k - 1;
        if dx == 0 && dy == 0 {
          continue;
        }
        if mask[i + dy + dx] {
          cnt := cnt + 1;
        }
      }
      NextRow(mask[..], w, h, x, y, j);
    }
  }

  /** Whether anything is on in the three by three block around a pixel; stops at the first hit. */
  method AnyOn(mask: array<bool>, w: nat, h: nat, x: nat, y: nat) returns (anyOn: bool)
    requires mask.Length == w * h && Interior(w, h, x, y)
    ensures anyOn <==> Near(mask[..], w, h, x, y, 1)
  {
    anyOn := false;
    var i := At(w, h, x, y);
    for j := 0 to 3
      invariant anyOn ==> Near(mask[..], w, h, x, y, 1)
      invariant !anyOn ==> NoneMet(mask[..], w, h, x, y, j, 0)
    {
      if anyOn {
        break;
      }
      for k := 0 to 3
        invariant !anyOn && NoneMet(mask[..], w, h, x, y, j, k)
      {
        ScanStep(mask[..], w, h, x, y, j, k);
        if mask[i + RowOffset(w, j) + (k - 1)] {
          assert On(mask[..], w, h, x + k - 1, y + j - 1);
          anyOn := true;
          break;
        }
      }
    }
  }

  ghost predicate NoneMet(m: seq<bool>, w: nat, h: nat, x: int, y: int, j: int, k: int)
    requires |m| == w * h
  {
    forall a, b :: x - 1 <= a <= x + 1 && y - 1 <= b <= y + 1 && Met(x, y, j, k, a, b) ==> !On(m, w, h, a, b)
  }

  /** The pixels before (x, y) in scan order are painted as asked, the others are still off. */
  ghost predicate PaintedUpTo(out: seq<bool>, w: nat, h: nat, x: int, y: int, pixel: (int, int) -> bool)
    requires |out| == w * h
  {
    forall a, b :: On(out, w, h, a, b) <==> (b < y || (b == y && a < x)) && pixel(a, b)
  }

  lemma {:induction false} PaintPixel(out: seq<bool>, w: nat, h: nat, x: nat, y: nat, pixel: (int, int) -> bool)
    requires |out| == w * h && Interior(w, h, x, y) && PaintedUpTo(out, w, h, x, y, pixel)
    ensures PaintedUpTo(out[At(w, h, x, y) := pixel(x, y)], w, h, x + 1, y, pixel)
    ensures !out[At(w, h, x, y)]
  {
    var painted := out[At(w, h, x, y) := pixel(x, y)];
    assert !On(out, w, h, x, y);
    forall a, b ensures On(painted, w, h, a, b) <==> (b < y || (b == y && a < x + 1)) && pixel(a, b) {
      if 0 <= a < w && 0 <= b < h {
        AtIsInjective(w, h, x, y, a, b);
        assert On(out, w, h, a, b) <==> (b < y || (b == y && a < x)) && pixel(a, b);
      } else {
        assert !On(out, w, h, a, b);
      }
    }
  }

  /** A pass that looks at inner pixels only and stays inside one row at a time is done after its last row. */
  lemma NextPaintRow(out: seq<bool>, w: nat, h: nat, x: int, y: int, pixel: (int, int) -> bool)
    requires |out| == w * h && PaintedUpTo(out, w, h, x, y, pixel)
    requires x >= w - 1 && forall a, b :: pixel(a, b) ==> Interior(w, h, a, b)
    ensures PaintedUpTo(out, w, h, 1, y + 1, pixel)
  {
    forall a, b ensures On(out, w, h, a, b) <==> (b < y + 1 || (b == y + 1 && a < 1)) && pixel(a, b) {
      assert On(out, w, h, a, b) <==> (b < y || (b == y && a < x)) && pixel(a, b);
    }
  }

  lemma FirstPaintRow(out: seq<bool>, w: nat, h: nat, pixel: (int, int) -> bool)
    requires |out| == w * h && forall i :: 0 <= i < w * h ==> !out[i]
    requires forall a, b :: pixel(a, b) ==> Interior(w, h, a, b)
    ensures PaintedUpTo(out, w, h, 1, 1, pixel)
  {
  }

  lemma {:induction false} LastPaintRow(out: seq<bool>, w: nat, h: nat, x: int, y: int, pixel: (int, int) -> bool)
    requires |out| == w * h && PaintedUpTo(out, w, h, x, y, pixel)
    requires y >= h - 1 && forall a, b :: pixel(a, b) ==> Interior(w, h, a, b)
    ensures out == Raster(w, h, pixel)
  {
    forall a, b ensures On(out, w, h, a, b) <==> On(Raster(w, h, pixel), w, h, a, b) {
      RasterPixels(w, h, pixel, a, b);
    }
    SamePixelsSameMask(out, Raster(w, h, pixel), w, h);
  }

  method Erode(mask: array<bool>, w: nat, h: nat, minNeighbors: int := MIN_NEIGHBORS) returns (out: array<bool>)
    requires mask.Length == w * h
    ensures fresh(out) && out[..] == Eroded(mask[..], w, h, minNeighbors)
  {
    out := new bool[w * h](_ => false);
    ghost var m := mask[..];
    ghost var pixel := (a, b) => Survives(m, w, h, a, b, minNeighbors);
    FirstPaintRow(out[..], w, h, pixel);
    var y := 1;
    while y < h - 1
      invariant 1 <= y && mask[..] == m && PaintedUpTo(out[..], w, h, 1, y, pixel)
    {
      var x := 1;
      while x < w - 1
        invariant 1 <= x && mask[..] == m && PaintedUpTo(out[..], w, h, x, y, pixel)
      {
        var i := At(w, h, x, y);
        PaintPixel(out[..], w, h, x, y, pixel);
        ghost var before := out[..];
        if mask[i] {
          var cnt := CountNeighbors(mask, w, h, x, y);
          if cnt >= minNeighbors {
            out[i] := true;
          }
        }
        assert pixel(x, y) <==> out[i];
        assert out[..] == before[i := pixel(x, y)];
        x := x + 1;
      }
      NextPaintRow(out[..], w, h, x, y, pixel);
      y := y + 1;
    }
    LastPaintRow(out[..], w, h, 1, y, pixel);
  }

  method Dilate(mask: array<bool>, w: nat, h: nat) returns (out: array<bool>)
    requires mask.Length == w * h
    ensures fresh(out) && out[..] == Dilated(mask[..], w, h)
  {
    out := new bool[w * h](_ => false);
    ghost var m := mask[..];
    ghost var pixel := (a, b) => Interior(w, h, a, b) && Near(m, w, h, a, b, 1);
    FirstPaintRow(out[..], w, h, pixel);
    var y := 1;
    while y < h - 1
      invariant 1 <= y && mask[..] == m && PaintedUpTo(out[..], w, h, 1, y, pixel)
    {
      var x := 1;
      while x < w - 1
        invariant 1 <= x && mask[..] == m && PaintedUpTo(out[..], w, h, x, y, pixel)
      {
        var i := At(w, h, x, y);
        PaintPixel(out[..], w, h, x, y, pixel);
        ghost var before := out[..];
        var anyOn := AnyOn(mask, w, h, x, y);
        out[i] := anyOn;
        assert out[..] == before[i := pixel(x, y)];
        x := x + 1;
      }
      NextPaintRow(out[..], w, h, x, y, pixel);
      y := y + 1;
    }
    LastPaintRow(out[..], w, h, 1, y, pixel);
  }

  // ---------- one sprite ----------

  ghost function Keyed(rgb: seq<Byte>, n: nat, opaqueColour: (Byte, Byte, Byte) -> bool): (m: seq<bool>)
    requires |rgb| == 3 * n
    ensures |m| == n
    ensures forall i :: 0 <= i < n ==> m[i] == opaqueColour(rgb[i * 3], rgb[i * 3 + 1], rgb[i * 3 + 2])
  {
    seq(n, i requires 0 <= i < n => opaqueColour(rgb[i * 3], rgb[i * 3 + 1], rgb[i * 3 + 2]))
  }

  method KeyImage(rgb: seq<Byte>, n: nat, opaqueColour: (Byte, Byte, Byte) -> bool) returns (mask: array<bool>)
    requires |rgb| == 3 * n
    ensures fresh(mask) && mask[..] == Keyed(rgb, n, opaqueColour)
  {
    mask := new bool[n](_ => false);
    for i := 0 to n
      invariant forall k :: 0 <= k < i ==> mask[k] == opaqueColour(rgb[k * 3], rgb[k * 3 + 1], rgb[k * 3 + 2])
    {
      var r, g, b := rgb[i * 3], rgb[i * 3 + 1], rgb[i * 3 + 2];
      mask[i] := opaqueColour(r, g, b);
    }
  }

  /** A pixel of the result: the colour it had, fully opaque, or four zero bytes. */
  ghost predicate PixelWritten(rgba: seq<Byte>, rgb: seq<Byte>, i: nat, on: bool)
    requires i * 3 + 2 < |rgb| && i * 4 + 3 < |rgba|
  {
    if on then
      && rgba[i * 4] == rgb[i * 3] && rgba[i * 4 + 1] == rgb[i * 3 + 1]
      && rgba[i * 4 + 2] == rgb[i * 3 + 2] && rgba[i * 4 + 3] == 255
    else
      rgba[i * 4] == 0 && rgba[i * 4 + 1] == 0 && rgba[i * 4 + 2] == 0 && rgba[i * 4 + 3] == 0
  }

  method CopyPixels(rgb: seq<Byte>, mask: array<bool>, n: nat) returns (rgba: array<Byte>)
    requires |rgb| == 3 * n && mask.Length == n
    ensures fresh(rgba) && rgba.Length == 4 * n
    ensures forall i: nat :: i < n ==> PixelWritten(rgba[..], rgb, i, mask[i])
  {
    rgba := new Byte[n * 4](_ => 0);
    for i := 0 to n
      invariant forall k: nat :: k < i ==> PixelWritten(rgba[..], rgb, k, mask[k])
      invariant forall k :: i * 4 <= k < rgba.Length ==> rgba[k] == 0
    {
      ghost var before := rgba[..];
      if mask[i] {
        rgba[i * 4] := rgb[i * 3];
        rgba[i * 4 + 1] := rgb[i * 3 + 1];
        rgba[i * 4 + 2] := rgb[i * 3 + 2];
        rgba[i * 4 + 3] := 255;
      }
      forall k: nat | k < i ensures PixelWritten(rgba[..], rgb, k, mask[k]) {
        assert PixelWritten(before, rgb, k, mask[k]);
      }
      assert PixelWritten(rgba[..], rgb, i, mask[i]);
    }
  }

  /** One sprite: keyed, eroded, dilated twice, and copied where the mask ended up on. */
  method Process(rgb: seq<Byte>, w: nat, h: nat, opaqueColour: (Byte, Byte, Byte) -> bool)
    returns (rgba: array<Byte>)
    requires |rgb| == 3 * (w * h)
    ensures fresh(rgba) && rgba.Length == 4 * (w * h)
    ensures var p := Pipeline(Keyed(rgb, w * h, opaqueColour), w, h);
      forall i: nat :: i < w * h ==> PixelWritten(rgba[..], rgb, i, p[i])
  {
    var mask := KeyImage(rgb, w * h, opaqueColour);
    mask := Erode(mask, w, h);
    mask := Dilate(mask, w, h);
    mask := Dilate(mask, w, h);
    assert mask[..] == Pipeline(Keyed(rgb, w * h, opaqueColour), w, h);
    rgba := CopyPixels(rgb, mask, w * h);
  }
}
