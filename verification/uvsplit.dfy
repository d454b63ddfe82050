/** `uvSplit`: cutting a texture sheet into equally sized frames, row by
    row, as texture coordinates in [0, 1]. */
module UvSplits {
  import opened Base

  /** Everything is in pixels: the sheet, where the first frame starts, the
      frame size, how many frames one row holds and how many to cut. */
  datatype UvSplitInfo = UvSplitInfo(
    pixelTexWidth: nat, pixelTexHeight: nat,
    pixelOffsetx: nat, pixelOffsety: nat,
    pixelFrameWidth: nat, pixelFrameHeight: nat,
    rowLength: nat, frameCount: nat)

  function FrameWidth(info: UvSplitInfo): real
    requires info.pixelTexWidth > 0
  {
    (info.pixelFrameWidth as real) / (info.pixelTexWidth as real)
  }

  function FrameHeight(info: UvSplitInfo): real
    requires info.pixelTexHeight > 0
  {
    (info.pixelFrameHeight as real) / (info.pixelTexHeight as real)
  }

  function OffsetX(info: UvSplitInfo): real
    requires info.pixelTexWidth > 0
  {
    (info.pixelOffsetx as real) / (info.pixelTexWidth as real)
  }

  function OffsetY(info: UvSplitInfo): real
    requires info.pixelTexHeight > 0
  {
    (info.pixelOffsety as real) / (info.pixelTexHeight as real)
  }

  /** The row wraps after `rowLength` frames, provided frames have width; a
      zero-width frame or a zero row length puts every frame on a row of its
      own. */
  predicate Wraps(info: UvSplitInfo)
  {
    info.pixelFrameWidth > 0 && info.rowLength > 0
  }

  /** Grid cell of frame `i`: (column, row). */
  function Cell(info: UvSplitInfo, i: nat): (c: (nat, nat))
    ensures Wraps(info) ==> c.0 < info.rowLength && c.1 * info.rowLength + c.0 == i
    ensures !Wraps(info) ==> c == (0, i)
  {
    if Wraps(info) then (i % info.rowLength, i / info.rowLength) else (0, i)
  }

  /** `k` frames' worth of `w`, added up one frame at a time as the walk
      does. */
  function Scale(k: nat, w: real): real
    decreases k
  {
    if k == 0 then 0.0 else Scale(k - 1, w) + w
  }

  /** The rectangle of the frame in grid cell (col, row). */
  function Frame(info: UvSplitInfo, col: nat, row: nat): (uv: Uv)
    requires info.pixelTexWidth > 0 && info.pixelTexHeight > 0
    ensures uv.right - uv.left == FrameWidth(info)
    ensures uv.bottom - uv.top == FrameHeight(info)
  {
    var x := OffsetX(info) + Scale(col, FrameWidth(info));
    var y := OffsetY(info) + Scale(row, FrameHeight(info));
    Uv(x, y, x + FrameWidth(info), y + FrameHeight(info))
  }

  /** `uvSplit`. The frames are cut row by row: frame `i` is the rectangle in
      column `i mod rowLength` and row `i div rowLength` of the grid that
      starts at the offset, each of one frame's size. */
  method UvSplit(info: UvSplitInfo) returns (uv: seq<Uv>)
    requires info.pixelTexWidth > 0 && info.pixelTexHeight > 0
    ensures |uv| == info.frameCount
    ensures forall i :: 0 <= i < |uv| ==> uv[i] == Frame(info, Cell(info, i).0, Cell(info, i).1)
  {
    var width := (info.pixelFrameWidth as real) / (info.pixelTexWidth as real);
    var height := (info.pixelFrameHeight as real) / (info.pixelTexHeight as real);
    var offsetx := (info.pixelOffsetx as real) / (info.pixelTexWidth as real);
    var x := offsetx;
    var y := (info.pixelOffsety as real) / (info.pixelTexHeight as real);
    // The wrap test's bound is the same on every iteration.
    var rowEnd := width * (info.rowLength as real) + offsetx;
    uv := [];
    var i := 0;
    while i < info.frameCount
      invariant i <= info.frameCount && |uv| == i
      invariant rowEnd == RowEnd(info)
      invariant x == FrameOf(info, i).left && y == FrameOf(info, i).top
      invariant forall j :: 0 <= j < i ==> uv[j] == FrameOf(info, j)
    {
      uv := uv + [Uv(x, y, x + width, y + height)];
      Advance(info, i);
      x := x + width;
      if x >= rowEnd {
        x := offsetx;
        y := y + height;
      }
      i := i + 1;
    }
  }

  /** The source's wrap bound: one row of frames past the offset. */
  function RowEnd(info: UvSplitInfo): real
    requires info.pixelTexWidth > 0
  {
    FrameWidth(info) * (info.rowLength as real) + OffsetX(info)
  }

  /** Frame `i` of the walk: the rectangle of its grid cell. */
  function FrameOf(info: UvSplitInfo, i: nat): Uv
    requires info.pixelTexWidth > 0 && info.pixelTexHeight > 0
  {
    Frame(info, Cell(info, i).0, Cell(info, i).1)
  }

  /** One step of the walk: moving one frame right, and back to the offset
      one row down when the source's wrap test fires, reaches the next
      frame. */
  lemma Advance(info: UvSplitInfo, i: nat)
    requires info.pixelTexWidth > 0 && info.pixelTexHeight > 0
    ensures var f := FrameOf(info, i);
      var w := FrameWidth(info);
      FrameOf(info, i + 1).left == (if f.left + w >= RowEnd(info) then OffsetX(info) else f.left + w)
    ensures var f := FrameOf(info, i);
      var w := FrameWidth(info);
      FrameOf(info, i + 1).top == (if f.left + w >= RowEnd(info) then f.top + FrameHeight(info) else f.top)
  {
    var c := Cell(info, i);
    NextCell(info, i);
    WrapAt(info, c.0);
    assert Scale(c.1 + 1, FrameHeight(info)) == Scale(c.1, FrameHeight(info)) + FrameHeight(info);
    assert Scale(c.0 + 1, FrameWidth(info)) == Scale(c.0, FrameWidth(info)) + FrameWidth(info);
  }

  /** How the cell advances from one frame to the next. */
  lemma NextCell(info: UvSplitInfo, i: nat)
    ensures Wraps(info) && Cell(info, i).0 + 1 < info.rowLength ==>
      Cell(info, i + 1) == (Cell(info, i).0 + 1, Cell(info, i).1)
    ensures Wraps(info) && Cell(info, i).0 + 1 == info.rowLength ==>
      Cell(info, i + 1) == (0, Cell(info, i).1 + 1)
    ensures !Wraps(info) ==> Cell(info, i + 1) == (0, Cell(info, i).1 + 1)
  {
    if Wraps(info) {
      var c := Cell(info, i);
      if c.0 + 1 < info.rowLength {
        DivModUnique(i + 1, info.rowLength, c.1, c.0 + 1);
      } else if c.0 + 1 == info.rowLength {
        assert (c.1 + 1) * info.rowLength == c.1 * info.rowLength + info.rowLength;
        DivModUnique(i + 1, info.rowLength, c.1 + 1, 0);
      }
    }
  }

  /** Quotient and remainder are the only such pair. */
  lemma DivModUnique(i: nat, n: nat, q: nat, r: nat)
    requires 0 < n && r < n && q * n + r == i
    ensures i / n == q && i % n == r
  {
    var q0 := i / n;
    assert q0 * n + i % n == i;
    MulStep(q, q0, n);
    MulStep(q0, q, n);
  }

  lemma {:induction false} MulStep(a: nat, b: nat, n: nat)
    ensures a < b ==> a * n + n <= b * n
    decreases b
  {
    if a + 1 < b {
      MulStep(a, b - 1, n);
      assert b * n == (b - 1) * n + n;
    } else if a + 1 == b {
      assert b * n == a * n + n;
    }
  }

  /** The running sum is the product. */
  lemma {:induction false} ScaleIsProduct(k: nat, w: real)
    ensures Scale(k, w) == (k as real) * w
    decreases k
  {
    if k > 0 {
      ScaleIsProduct(k - 1, w);
      assert (k as real) * w == ((k - 1) as real) * w + w;
    }
  }

  /** With a positive step, more steps reach further. */
  lemma {:induction false} ScaleOrder(a: nat, b: nat, w: real)
    requires w > 0.0
    ensures Scale(a, w) >= Scale(b, w) <==> a >= b
    decreases a + b
  {
    if a > 0 && b > 0 {
      ScaleOrder(a - 1, b - 1, w);
    } else if a > 0 {
      ScalePositive(a, w);
    } else if b > 0 {
      ScalePositive(b, w);
    }
  }

  lemma {:induction false} ScalePositive(k: nat, w: real)
    requires w > 0.0 && k > 0
    ensures Scale(k, w) > 0.0
    decreases k
  {
    if k > 1 {
      ScalePositive(k - 1, w);
    }
  }

  /** The source's wrap test, `x + width >= width * rowLength + offset`,
      fires exactly at the end of a row. */
  lemma WrapAt(info: UvSplitInfo, col: nat)
    requires info.pixelTexWidth > 0
    requires Wraps(info) ==> col < info.rowLength
    requires !Wraps(info) ==> col == 0
    ensures var width := FrameWidth(info);
      (OffsetX(info) + Scale(col, width) + width >= width * (info.rowLength as real) + OffsetX(info))
      <==> (!Wraps(info) || col + 1 == info.rowLength)
  {
    var width := FrameWidth(info);
    ScaleIsProduct(info.rowLength, width);
    assert width * (info.rowLength as real) == Scale(info.rowLength, width);
    assert Scale(col, width) + width == Scale(col + 1, width);
    if Wraps(info) {
      assert width > 0.0;
      ScaleOrder(col + 1, info.rowLength, width);
    } else if info.pixelFrameWidth == 0 {
      assert width == 0.0;
      ScaleZero(info.rowLength);
    }
  }

  lemma {:induction false} ScaleZero(k: nat)
    ensures Scale(k, 0.0) == 0.0
    decreases k
  {
    if k > 0 {
      ScaleZero(k - 1);
    }
  }

  /** Neighbours in a row touch: a frame starts where the one before it
      ends, and they share top and bottom. */
  lemma RowNeighboursTouch(info: UvSplitInfo, i: nat)
    requires info.pixelTexWidth > 0 && info.pixelTexHeight > 0
    requires Wraps(info) && (i + 1) % info.rowLength != 0
    ensures Frame(info, Cell(info, i + 1).0, Cell(info, i + 1).1).left
         == Frame(info, Cell(info, i).0, Cell(info, i).1).right
    ensures Frame(info, Cell(info, i + 1).0, Cell(info, i + 1).1).top
         == Frame(info, Cell(info, i).0, Cell(info, i).1).top
  {
    NextCell(info, i);
  }

  /** The bitmap-font sheet: 96 glyphs of 8 by 12 pixels, 32 to a row, on a
      256 by 36 texture, fill three rows and stay on the sheet. */
  lemma FontSheet(i: nat)
    requires i < 96
    ensures var info := UvSplitInfo(256, 36, 0, 0, 8, 12, 32, 96);
      && Cell(info, i) == (i % 32, i / 32)
      && 0.0 <= Frame(info, i % 32, i / 32).left && Frame(info, i % 32, i / 32).right <= 1.0
      && 0.0 <= Frame(info, i % 32, i / 32).top && Frame(info, i % 32, i / 32).bottom <= 1.0
  {
    var info := UvSplitInfo(256, 36, 0, 0, 8, 12, 32, 96);
    var col := i % 32;
    var row := i / 32;
    assert row < 3;
    ScaleIsProduct(col, FrameWidth(info));
    ScaleIsProduct(row, FrameHeight(info));
    assert FrameWidth(info) == 1.0 / 32.0;
    assert FrameHeight(info) == 1.0 / 3.0;
    assert (col as real) * (1.0 / 32.0) + 1.0 / 32.0 == ((col + 1) as real) / 32.0;
    assert (row as real) * (1.0 / 3.0) + 1.0 / 3.0 == ((row + 1) as real) / 3.0;
  }
}
