/** The box-filter downscaler: each output pixel is the average of the source cell it covers,
    summed in 32-bit accumulators. */
module Thumbnail {
  newtype Uint32 = x: int | 0 <= x < 0x1_0000_0000
  type Byte = x: int | 0 <= x < 256

  datatype Pixel = Pixel(r: Byte, g: Byte, b: Byte, a: Byte)
  datatype Channel = R | G | B | A

  const SIDE := 320
  const MAX_SIDE := 16384
  const MAX_PIXELS := 64_000_000

  function Of(p: Pixel, c: Channel): Byte {
    match c
    case R => p.r
    case G => p.g
    case B => p.b
    case A => p.a
  }

  ghost predicate IsImage(src: seq<seq<Pixel>>, w: nat, h: nat) {
    |src| == h && forall y :: 0 <= y < h ==> |src[y]| == w
  }

  // The images a thumbnail is made of: what the decoder's limits let through.
  predicate Accepted(w: nat, h: nat) {
    1 <= w <= MAX_SIDE && 1 <= h <= MAX_SIDE && w * h <= MAX_PIXELS && (w > SIDE || h > SIDE)
  }

  function Max(a: int, b: int): int { if a >= b then a else b }

  function TargetWidth(w: nat, h: nat): nat
    requires h > 0
  {
    if w >= h then SIDE else Max(1, w * SIDE / h)
  }

  function TargetHeight(w: nat, h: nat): nat
    requires w > 0
  {
    if w >= h then Max(1, h * SIDE / w) else SIDE
  }

  // Where cell k of d starts along a side of s pixels.
  function Edge(k: nat, s: nat, d: nat): nat
    requires d > 0
  {
    k * s / d
  }

  function RowSum(row: seq<Pixel>, x0: nat, x1: nat, c: Channel): nat
    requires x0 <= x1 <= |row|
  {
    if x0 == x1 then 0 else RowSum(row, x0, x1 - 1, c) + Of(row[x1 - 1], c)
  }

  function CellSum(src: seq<seq<Pixel>>, x0: nat, x1: nat, y0: nat, y1: nat, c: Channel): nat
    requires y0 <= y1 <= |src| && x0 <= x1 && forall y :: y0 <= y < y1 ==> x1 <= |src[y]|
  {
    if y0 == y1 then 0 else CellSum(src, x0, x1, y0, y1 - 1, c) + RowSum(src[y1 - 1], x0, x1, c)
  }

  lemma DivBounds(n: int, d: int)
    requires d > 0
    ensures d * (n / d) <= n < d * (n / d) + d
  {
  }

  lemma MulOrder(d: int, a: int, b: int)
    requires d > 0
    ensures d * a < d * b <==> a < b
  {
  }

  lemma DivUnique(n: int, d: int, q: int)
    requires d > 0 && d * q <= n < d * q + d
    ensures n / d == q
  {
    DivBounds(n, d);
    MulOrder(d, n / d, q + 1);
    MulOrder(d, q, n / d + 1);
  }

  /** Along one side the cells start at 0, end at the far edge, are never empty, and none is
      more than one pixel longer than the ratio. */
  lemma {:induction false} EdgesTile(k: nat, s: nat, d: nat)
    requires 0 < d <= s
    ensures Edge(0, s, d) == 0 && Edge(d, s, d) == s
    ensures Edge(k, s, d) < Edge(k + 1, s, d) <= Edge(k, s, d) + s / d + 1
  {
    DivUnique(d * s, d, s);
    DivUnique(0, d, 0);
    var a, b, q := k * s / d, (k + 1) * s / d, s / d;
    DivBounds(k * s, d);
    DivBounds((k + 1) * s, d);
    DivBounds(s, d);
    assert (k + 1) * s == k * s + s;
    MulOrder(d, a, b);
    assert d * (a + q + 2) == d * a + d * q + 2 * d;
    MulOrder(d, b, a + q + 2);
  }

  lemma {:induction false} EdgeInside(k: nat, s: nat, d: nat)
    requires 0 < d <= s && k <= d
    ensures Edge(k, s, d) <= s
    decreases d - k
  {
    EdgesTile(k, s, d);
    if k < d {
      EdgeInside(k + 1, s, d);
    }
  }

  ghost predicate InCell(p: nat, c: nat, s: nat, d: nat)
    requires d > 0
  {
    Edge(c, s, d) <= p < Edge(c + 1, s, d)
  }

  /** Every source position lies in exactly one cell. */
  lemma {:induction false} OneCell(p: nat, s: nat, d: nat)
    requires 0 < d <= s && p < s
    ensures exists c :: 0 <= c < d && InCell(p, c, s, d)
    ensures forall c, e :: 0 <= c < d && 0 <= e < d && InCell(p, c, s, d) && InCell(p, e, s, d) ==> c == e
  {
    EdgesTile(0, s, d);
    var c := CellOf(p, s, d, d);
    forall c: nat, e: nat | c < e && InCell(p, c, s, d)
      ensures !InCell(p, e, s, d)
    {
      EdgeOrder(c + 1, e, s, d);
    }
  }

  lemma {:induction false} CellOf(p: nat, s: nat, d: nat, k: nat) returns (c: nat)
    requires 0 < d <= s && p < Edge(k, s, d)
    ensures c < k && InCell(p, c, s, d)
  {
    hide Edge;
    EdgesTile(0, s, d);
    if p < Edge(k - 1, s, d) {
      c := CellOf(p, s, d, k - 1);
    } else {
      c := k - 1;
    }
  }

  lemma {:induction false} EdgeOrder(j: nat, k: nat, s: nat, d: nat)
    requires 0 < d <= s && j <= k
    ensures Edge(j, s, d) <= Edge(k, s, d)
    decreases k - j
  {
    hide Edge;
    if j < k {
      EdgesTile(j, s, d);
      EdgeOrder(j + 1, k, s, d);
    }
  }

  const MAX_CELL: int := 52 * MAX_SIDE

  lemma LongSide(s: nat)
    requires s <= MAX_SIDE
    ensures s / SIDE + 1 <= 52
  {
  }

  /** The target has at least one pixel a side, its longest side is the thumbnail side, and it is
      no larger than the source. */
  lemma {:induction false} TargetFits(w: nat, h: nat)
    requires Accepted(w, h)
    ensures 1 <= TargetWidth(w, h) <= w && 1 <= TargetHeight(w, h) <= h
    ensures Max(TargetWidth(w, h), TargetHeight(w, h)) == SIDE
  {
    if w >= h {
      Scaled(h, w);
    } else {
      Scaled(w, h);
    }
  }

  /** The short side keeps the ratio of the sides, rounded down, but is at least one pixel. */
  lemma TargetKeepsTheRatio(w: nat, h: nat)
    requires Accepted(w, h)
    ensures var short, long, target := if w >= h then h else w, Max(w, h),
        if w >= h then TargetHeight(w, h) else TargetWidth(w, h);
      && (target > 1 ==> long * target <= short * SIDE)
      && short * SIDE < long * target + long
  {
    var short, long := if w >= h then h else w, Max(w, h);
    DivBounds(short * SIDE, long);
  }

  // The short side, scaled.
  lemma Scaled(short: nat, long: nat)
    requires 1 <= short <= long && SIDE < long
    ensures 1 <= Max(1, short * SIDE / long) <= short
    ensures Max(1, short * SIDE / long) <= SIDE
  {
    DivBounds(short * SIDE, long);
    var q := short * SIDE / long;
    assert short * SIDE <= long * SIDE && short * SIDE < short * long + long by {
      assert short * SIDE <= short * long;
    }
    MulOrder(long, q, SIDE + 1);
    MulOrder(long, q, short + 1);
    assert long * (SIDE + 1) == long * SIDE + long && long * (short + 1) == long * short + long;
  }

  /** No cell is so large that its channel sum would overflow 32 bits. */
  lemma {:induction false} CellFits(x: nat, y: nat, w: nat, h: nat)
    requires Accepted(w, h)
    requires x < TargetWidth(w, h) && y < TargetHeight(w, h)
    ensures var dw, dh := TargetWidth(w, h), TargetHeight(w, h);
      && Edge(x, w, dw) < Edge(x + 1, w, dw) <= w
      && Edge(y, h, dh) < Edge(y + 1, h, dh) <= h
      && (Edge(x + 1, w, dw) - Edge(x, w, dw)) * (Edge(y + 1, h, dh) - Edge(y, h, dh)) <= MAX_CELL
  {
    hide Edge;
    TargetFits(w, h);
    var dw, dh := TargetWidth(w, h), TargetHeight(w, h);
    EdgesTile(x, w, dw);
    EdgesTile(y, h, dh);
    EdgeInside(x + 1, w, dw);
    EdgeInside(y + 1, h, dh);
    var cw, ch := Edge(x + 1, w, dw) - Edge(x, w, dw), Edge(y + 1, h, dh) - Edge(y, h, dh);
    if w >= h {
      LongSide(w);
      Product(cw, 52, ch, MAX_SIDE);
    } else {
      LongSide(h);
      Product(ch, 52, cw, MAX_SIDE);
    }
  }

  lemma Product(a: nat, b: nat, c: nat, d: nat)
    requires a <= b && c <= d
    ensures a * c <= b * d
  {
  }

  // The pixel a cell averages to, each channel rounded down.
  ghost function Average(src: seq<seq<Pixel>>, x0: nat, x1: nat, y0: nat, y1: nat): Pixel
    requires y0 < y1 <= |src| && x0 < x1 && forall y :: y0 <= y < y1 ==> x1 <= |src[y]|
  {
    AverageIsByte(src, x0, x1, y0, y1, R);
    AverageIsByte(src, x0, x1, y0, y1, G);
    AverageIsByte(src, x0, x1, y0, y1, B);
    AverageIsByte(src, x0, x1, y0, y1, A);
    var n := (x1 - x0) * (y1 - y0);
    Pixel(CellSum(src, x0, x1, y0, y1, R) / n, CellSum(src, x0, x1, y0, y1, G) / n,
          CellSum(src, x0, x1, y0, y1, B) / n, CellSum(src, x0, x1, y0, y1, A) / n)
  }

  lemma {:induction false} RowBound(row: seq<Pixel>, x0: nat, x1: nat, c: Channel)
    requires x0 <= x1 <= |row|
    ensures RowSum(row, x0, x1, c) <= 255 * (x1 - x0)
  {
    if x0 < x1 {
      RowBound(row, x0, x1 - 1, c);
    }
  }

  lemma {:induction false} CellBound(src: seq<seq<Pixel>>, x0: nat, x1: nat, y0: nat, y1: nat, c: Channel)
    requires y0 <= y1 <= |src| && x0 <= x1 && forall y :: y0 <= y < y1 ==> x1 <= |src[y]|
    ensures CellSum(src, x0, x1, y0, y1, c) <= 255 * ((x1 - x0) * (y1 - y0))
  {
    if y0 < y1 {
      CellBound(src, x0, x1, y0, y1 - 1, c);
      RowBound(src[y1 - 1], x0, x1, c);
      assert (x1 - x0) * (y1 - y0) == (x1 - x0) * (y1 - 1 - y0) + (x1 - x0);
    }
  }

  lemma AverageIsByte(src: seq<seq<Pixel>>, x0: nat, x1: nat, y0: nat, y1: nat, c: Channel)
    requires y0 < y1 <= |src| && x0 < x1 && forall y :: y0 <= y < y1 ==> x1 <= |src[y]|
    ensures (x1 - x0) * (y1 - y0) > 0
    ensures 0 <= CellSum(src, x0, x1, y0, y1, c) / ((x1 - x0) * (y1 - y0)) < 256
  {
    CellBound(src, x0, x1, y0, y1, c);
    Positive(x1 - x0, y1 - y0);
    Quotient(CellSum(src, x0, x1, y0, y1, c), (x1 - x0) * (y1 - y0));
  }

  lemma Positive(a: nat, b: nat)
    requires a > 0 && b > 0
    ensures a * b > 0
  {
  }

  lemma Quotient(sum: nat, n: nat)
    requires n > 0 && sum <= 255 * n
    ensures 0 <= sum / n < 256
  {
    DivBounds(sum, n);
    MulOrder(n, sum / n, 256);
  }

  method AverageCell(src: seq<seq<Pixel>>, x0: nat, x1: nat, y0: nat, y1: nat) returns (p: Pixel)
    requires y0 < y1 <= |src| && x0 < x1 && forall y :: y0 <= y < y1 ==> x1 <= |src[y]|
    requires (x1 - x0) * (y1 - y0) <= MAX_CELL
    ensures p == Average(src, x0, x1, y0, y1)
  {
    var r: Uint32, g: Uint32, bl: Uint32, a: Uint32, n: Uint32 := 0, 0, 0, 0, 0;
    for yy := y0 to y1
      invariant Sums(src, x0, x1, y0, yy, r as int, g as int, bl as int, a as int)
      invariant n as int == (x1 - x0) * (yy - y0)
    {
      r, g, bl, a, n := AddRow(src, x0, x1, y0, yy, y1, r, g, bl, a, n);
    }
    Positive(x1 - x0, y1 - y0);
    AverageIsByte(src, x0, x1, y0, y1, R);
    AverageIsByte(src, x0, x1, y0, y1, G);
    AverageIsByte(src, x0, x1, y0, y1, B);
    AverageIsByte(src, x0, x1, y0, y1, A);
    p := Pixel((r / n) as int, (g / n) as int, (bl / n) as int, (a / n) as int);
  }

  ghost predicate Sums(src: seq<seq<Pixel>>, x0: nat, x1: nat, y0: nat, y1: nat, r: int, g: int, b: int, a: int)
    requires y0 <= y1 <= |src| && x0 <= x1 && forall y :: y0 <= y < y1 ==> x1 <= |src[y]|
  {
    && r == CellSum(src, x0, x1, y0, y1, R)
    && g == CellSum(src, x0, x1, y0, y1, G)
    && b == CellSum(src, x0, x1, y0, y1, B)
    && a == CellSum(src, x0, x1, y0, y1, A)
  }

  // The inner loop: one row of the cell added to the accumulators.
  method AddRow(src: seq<seq<Pixel>>, x0: nat, x1: nat, y0: nat, yy: nat, ghost y1: nat, r0: Uint32, g0: Uint32,
                b0: Uint32, a0: Uint32, n0: Uint32)
    returns (r: Uint32, g: Uint32, bl: Uint32, a: Uint32, n: Uint32)
    requires y0 <= yy < y1 <= |src| && x0 < x1 && forall y :: y0 <= y < y1 ==> x1 <= |src[y]|
    requires (x1 - x0) * (y1 - y0) <= MAX_CELL
    requires Sums(src, x0, x1, y0, yy, r0 as int, g0 as int, b0 as int, a0 as int)
    requires n0 as int == (x1 - x0) * (yy - y0)
    ensures Sums(src, x0, x1, y0, yy + 1, r as int, g as int, bl as int, a as int)
    ensures n as int == (x1 - x0) * (yy + 1 - y0)
  {
    var row := src[yy];
    r, g, bl, a, n := r0, g0, b0, a0, n0;
    RowFits(x1 - x0, yy - y0, y1 - y0);
    CellBound(src, x0, x1, y0, yy, R);
    CellBound(src, x0, x1, y0, yy, G);
    CellBound(src, x0, x1, y0, yy, B);
    CellBound(src, x0, x1, y0, yy, A);
    for xx := x0 to x1
      invariant r as int == r0 as int + RowSum(row, x0, xx, R) <= 255 * n as int
      invariant g as int == g0 as int + RowSum(row, x0, xx, G) <= 255 * n as int
      invariant bl as int == b0 as int + RowSum(row, x0, xx, B) <= 255 * n as int
      invariant a as int == a0 as int + RowSum(row, x0, xx, A) <= 255 * n as int
      invariant n as int == n0 as int + (xx - x0)
    {
      var p := row[xx];
      r := r + p.r as Uint32;
      g := g + p.g as Uint32;
      bl := bl + p.b as Uint32;
      a := a + p.a as Uint32;
      n := n + 1;
    }
  }

  lemma RowFits(width: nat, rows: nat, height: nat)
    requires rows < height && width * height <= MAX_CELL
    ensures width * (rows + 1) == width * rows + width <= MAX_CELL
  {
    Product(width, width, rows + 1, height);
  }

  /** Shrink an accepted image: every output pixel is the average of its own cell. */
  method Downscale(src: seq<seq<Pixel>>, w: nat, h: nat) returns (dst: array2<Pixel>)
    requires Accepted(w, h) && IsImage(src, w, h)
    ensures fresh(dst) && dst.Length0 == TargetHeight(w, h) && dst.Length1 == TargetWidth(w, h)
    ensures forall y, x :: 0 <= y < dst.Length0 && 0 <= x < dst.Length1 ==> dst[y, x] == CellAverage(src, w, h, x, y)
  {
    hide Edge, CellAverage;
    TargetFits(w, h);
    var dw, dh := TargetWidth(w, h), TargetHeight(w, h);
    dst := new Pixel[dh, dw]((_, _) => Pixel(0, 0, 0, 0));
    for y := 0 to dh
      invariant forall v, u :: 0 <= v < y && 0 <= u < dw ==> dst[v, u] == CellAverage(src, w, h, u, v)
    {
      for x := 0 to dw
        invariant forall v, u :: 0 <= v < y && 0 <= u < dw ==> dst[v, u] == CellAverage(src, w, h, u, v)
        invariant forall v, u :: v == y && 0 <= u < x ==> dst[v, u] == CellAverage(src, w, h, u, v)
      {
        var p := ScaleOne(src, w, h, x, y);
        dst[y, x] := p;
      }
    }
  }

  ghost function CellAverage(src: seq<seq<Pixel>>, w: nat, h: nat, x: nat, y: nat): Pixel
    requires Accepted(w, h) && IsImage(src, w, h)
    requires x < TargetWidth(w, h) && y < TargetHeight(w, h)
  {
    CellFits(x, y, w, h);
    var dw, dh := TargetWidth(w, h), TargetHeight(w, h);
    Average(src, Edge(x, w, dw), Edge(x + 1, w, dw), Edge(y, h, dh), Edge(y + 1, h, dh))
  }

  method ScaleOne(src: seq<seq<Pixel>>, w: nat, h: nat, x: nat, y: nat) returns (p: Pixel)
    requires Accepted(w, h) && IsImage(src, w, h)
    requires x < TargetWidth(w, h) && y < TargetHeight(w, h)
    ensures p == CellAverage(src, w, h, x, y)
  {
    hide Average;
    CellFits(x, y, w, h);
    var dw, dh := TargetWidth(w, h), TargetHeight(w, h);
    var y0, y1 := y * h / dh, Max((y + 1) * h / dh, y * h / dh + 1);
    var x0, x1 := x * w / dw, Max((x + 1) * w / dw, x * w / dw + 1);
    p := AverageCell(src, x0, x1, y0, y1);
  }

  lemma AverageIsTheMean(src: seq<seq<Pixel>>, x0: nat, x1: nat, y0: nat, y1: nat, c: Channel)
    requires y0 < y1 <= |src| && x0 < x1 && forall y :: y0 <= y < y1 ==> x1 <= |src[y]|
    ensures var n, mean := (x1 - x0) * (y1 - y0), Of(Average(src, x0, x1, y0, y1), c);
      n * mean <= CellSum(src, x0, x1, y0, y1, c) < n * mean + n
  {
    AverageIsByte(src, x0, x1, y0, y1, c);
    DivBounds(CellSum(src, x0, x1, y0, y1, c), (x1 - x0) * (y1 - y0));
  }

  /** Each channel of an output pixel is the mean of the source pixels between the edges of its own cell,
      rounded down. */
  lemma PixelIsTheMeanOfItsCell(src: seq<seq<Pixel>>, w: nat, h: nat, x: nat, y: nat, c: Channel)
    requires Accepted(w, h) && IsImage(src, w, h)
    requires x < TargetWidth(w, h) && y < TargetHeight(w, h)
    ensures var dw, dh := TargetWidth(w, h), TargetHeight(w, h);
      var x0, x1, y0, y1 := Edge(x, w, dw), Edge(x + 1, w, dw), Edge(y, h, dh), Edge(y + 1, h, dh);
      && x0 < x1 <= w && y0 < y1 <= h
      && var n, mean := (x1 - x0) * (y1 - y0), Of(CellAverage(src, w, h, x, y), c);
        n * mean <= CellSum(src, x0, x1, y0, y1, c) < n * mean + n
  {
    hide Edge, Average;
    CellFits(x, y, w, h);
    var dw, dh := TargetWidth(w, h), TargetHeight(w, h);
    AverageIsTheMean(src, Edge(x, w, dw), Edge(x + 1, w, dw), Edge(y, h, dh), Edge(y + 1, h, dh), c);
  }

  /** Averaging keeps premultiplied alpha: if no colour of the cell exceeds its alpha, neither
      does the average. */
  lemma {:induction false} AveragePremultiplied(src: seq<seq<Pixel>>, x0: nat, x1: nat, y0: nat, y1: nat, c: Channel)
    requires y0 < y1 <= |src| && x0 < x1 && forall y :: y0 <= y < y1 ==> x1 <= |src[y]|
    requires forall y, x :: y0 <= y < y1 && x0 <= x < x1 ==> Of(src[y][x], c) <= src[y][x].a
    ensures Of(Average(src, x0, x1, y0, y1), c) <= Average(src, x0, x1, y0, y1).a
  {
    CellBelowAlpha(src, x0, x1, y0, y1, c);
    AverageIsByte(src, x0, x1, y0, y1, c);
    AverageIsByte(src, x0, x1, y0, y1, A);
    DivMonotone(CellSum(src, x0, x1, y0, y1, c), CellSum(src, x0, x1, y0, y1, A), (x1 - x0) * (y1 - y0));
  }

  lemma DivMonotone(m: nat, n: nat, d: nat)
    requires d > 0 && m <= n
    ensures m / d <= n / d
  {
    DivBounds(m, d);
    DivBounds(n, d);
    MulOrder(d, m / d, n / d + 1);
  }

  lemma {:induction false} RowBelowAlpha(row: seq<Pixel>, x0: nat, x1: nat, c: Channel)
    requires x0 <= x1 <= |row|
    requires forall x :: x0 <= x < x1 ==> Of(row[x], c) <= row[x].a
    ensures RowSum(row, x0, x1, c) <= RowSum(row, x0, x1, A)
  {
    if x0 < x1 {
      RowBelowAlpha(row, x0, x1 - 1, c);
    }
  }

  lemma {:induction false} CellBelowAlpha(src: seq<seq<Pixel>>, x0: nat, x1: nat, y0: nat, y1: nat, c: Channel)
    requires y0 <= y1 <= |src| && x0 <= x1 && forall y :: y0 <= y < y1 ==> x1 <= |src[y]|
    requires forall y, x :: y0 <= y < y1 && x0 <= x < x1 ==> Of(src[y][x], c) <= src[y][x].a
    ensures CellSum(src, x0, x1, y0, y1, c) <= CellSum(src, x0, x1, y0, y1, A)
  {
    if y0 < y1 {
      CellBelowAlpha(src, x0, x1, y0, y1 - 1, c);
      RowBelowAlpha(src[y1 - 1], x0, x1, c);
    }
  }

  lemma {:induction false} RowSplits(row: seq<Pixel>, x0: nat, x1: nat, x2: nat, c: Channel)
    requires x0 <= x1 <= x2 <= |row|
    ensures RowSum(row, x0, x2, c) == RowSum(row, x0, x1, c) + RowSum(row, x1, x2, c)
  {
    if x1 < x2 {
      RowSplits(row, x0, x1, x2 - 1, c);
    }
  }

  lemma {:induction false} CellSplitsAcross(src: seq<seq<Pixel>>, x0: nat, x1: nat, x2: nat, y0: nat, y1: nat,
                                            c: Channel)
    requires y0 <= y1 <= |src| && x0 <= x1 <= x2 && forall y :: y0 <= y < y1 ==> x2 <= |src[y]|
    ensures CellSum(src, x0, x2, y0, y1, c) == CellSum(src, x0, x1, y0, y1, c) + CellSum(src, x1, x2, y0, y1, c)
  {
    if y0 < y1 {
      CellSplitsAcross(src, x0, x1, x2, y0, y1 - 1, c);
      RowSplits(src[y1 - 1], x0, x1, x2, c);
    }
  }

  lemma {:induction false} CellSplitsDown(src: seq<seq<Pixel>>, x0: nat, x1: nat, y0: nat, y1: nat, y2: nat, c: Channel)
    requires y0 <= y1 <= y2 <= |src| && x0 <= x1 && forall y :: y0 <= y < y2 ==> x1 <= |src[y]|
    ensures CellSum(src, x0, x1, y0, y2, c) == CellSum(src, x0, x1, y0, y1, c) + CellSum(src, x0, x1, y1, y2, c)
  {
    if y1 < y2 {
      CellSplitsDown(src, x0, x1, y0, y1, y2 - 1, c);
    }
  }

  // The sums of the first n cells of one band, and of the first n bands.
  ghost function BandTotal(src: seq<seq<Pixel>>, w: nat, h: nat, n: nat, y: nat, c: Channel): nat
    requires Accepted(w, h) && IsImage(src, w, h)
    requires n <= TargetWidth(w, h) && y < TargetHeight(w, h)
  {
    if n == 0 then 0
    else
      CellFits(n - 1, y, w, h);
      var dw, dh := TargetWidth(w, h), TargetHeight(w, h);
      BandTotal(src, w, h, n - 1, y, c)
      + CellSum(src, Edge(n - 1, w, dw), Edge(n, w, dw), Edge(y, h, dh), Edge(y + 1, h, dh), c)
  }

  ghost function GridTotal(src: seq<seq<Pixel>>, w: nat, h: nat, n: nat, c: Channel): nat
    requires Accepted(w, h) && IsImage(src, w, h)
    requires n <= TargetHeight(w, h)
  {
    if n == 0 then 0
    else
      TargetFits(w, h);
      GridTotal(src, w, h, n - 1, c) + BandTotal(src, w, h, TargetWidth(w, h), n - 1, c)
  }

  lemma {:induction false} BandIsWhole(src: seq<seq<Pixel>>, w: nat, h: nat, n: nat, y: nat, c: Channel)
    requires Accepted(w, h) && IsImage(src, w, h)
    requires n <= TargetWidth(w, h) && y < TargetHeight(w, h)
    ensures var dw, dh := TargetWidth(w, h), TargetHeight(w, h);
      && 0 < dw && 0 < dh && Edge(n, w, dw) <= w && Edge(y, h, dh) <= Edge(y + 1, h, dh) <= h
      && BandTotal(src, w, h, n, y, c) == CellSum(src, 0, Edge(n, w, dw), Edge(y, h, dh), Edge(y + 1, h, dh), c)
  {
    hide Edge;
    TargetFits(w, h);
    var dw, dh := TargetWidth(w, h), TargetHeight(w, h);
    CellFits(0, y, w, h);
    EdgesTile(0, w, dw);
    if n == 0 {
      NoColumns(src, 0, Edge(y, h, dh), Edge(y + 1, h, dh), c);
    } else {
      CellFits(n - 1, y, w, h);
      BandIsWhole(src, w, h, n - 1, y, c);
      CellSplitsAcross(src, 0, Edge(n - 1, w, dw), Edge(n, w, dw), Edge(y, h, dh), Edge(y + 1, h, dh), c);
    }
  }

  lemma {:induction false} NoColumns(src: seq<seq<Pixel>>, x: nat, y0: nat, y1: nat, c: Channel)
    requires y0 <= y1 <= |src| && forall y :: y0 <= y < y1 ==> x <= |src[y]|
    ensures CellSum(src, x, x, y0, y1, c) == 0
  {
    if y0 < y1 {
      NoColumns(src, x, y0, y1 - 1, c);
    }
  }

  lemma {:induction false} BandsAreWhole(src: seq<seq<Pixel>>, w: nat, h: nat, n: nat, c: Channel)
    requires Accepted(w, h) && IsImage(src, w, h) && n <= TargetHeight(w, h)
    ensures var dh := TargetHeight(w, h);
      0 < dh && Edge(n, h, dh) <= h && GridTotal(src, w, h, n, c) == CellSum(src, 0, w, 0, Edge(n, h, dh), c)
  {
    hide Edge;
    TargetFits(w, h);
    var dw, dh := TargetWidth(w, h), TargetHeight(w, h);
    EdgesTile(0, h, dh);
    EdgesTile(0, w, dw);
    if n > 0 {
      BandsAreWhole(src, w, h, n - 1, c);
      BandIsWhole(src, w, h, dw, n - 1, c);
      CellSplitsDown(src, 0, w, 0, Edge(n - 1, h, dh), Edge(n, h, dh), c);
    }
  }

  /** Conservation: the cells' sums together are the sum of the whole image, so every source
      pixel is read exactly once. */
  lemma {:induction false} EveryPixelOnce(src: seq<seq<Pixel>>, w: nat, h: nat, c: Channel)
    requires Accepted(w, h) && IsImage(src, w, h)
    ensures GridTotal(src, w, h, TargetHeight(w, h), c) == CellSum(src, 0, w, 0, h, c)
  {
    hide Edge;
    TargetFits(w, h);
    EdgesTile(0, h, TargetHeight(w, h));
    BandsAreWhole(src, w, h, TargetHeight(w, h), c);
  }
}
