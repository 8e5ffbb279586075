/**
 The rasterisers of hal/drawing.cpp: fast horizontal and vertical lines, sloped lines, filled circles.
 */
module Drawing {
  import opened FlatMatrix
  import opened Canvas

  /** A frame: two planes and their dimensions. */
  datatype FrameBuf = FrameBuf(y: array<byte>, uv: array<byte>, d: Dims) {
    ghost predicate Usable() { y != uv && Fits(d, y.Length, uv.Length) }

    ghost function Now(): (p: Planes)
      reads y, uv
      ensures |p.y| == y.Length && |p.uv| == uv.Length
    {
      Planes(y[..], uv[..])
    }
  }

  /** 128 bytes of a colour's chroma, refilled when the colour changes. */
  class UvPattern {
    const pat: array<byte>
    var cached: Color

    ghost predicate Valid()
      reads this, pat
    {
      pat.Length == 128 && forall i :: 0 <= i < 128 ==> pat[i] == Chroma(i, cached)
    }

    constructor ()
      ensures Valid() && fresh(pat)
    {
      pat := new byte[128](_ => 0);
      cached := Color(0, 0, 0);
    }

    method Get(c: Color)
      requires Valid()
      modifies this`cached, pat
      ensures Valid() && cached == c
    {
      if cached != c {
        for k := 0 to 64
          invariant forall i :: 0 <= i < 2 * k ==> pat[i] == Chroma(i, c)
        {
          pat[2 * k] := c.u;
          pat[2 * k + 1] := c.v;
        }
        cached := c;
      }
    }
  }

  method Memset(a: array<byte>, start: nat, n: nat, v: byte)
    requires start + n <= a.Length
    modifies a
    ensures a[..] == FilledY(old(a[..]), start, start + n, v)
  {
    for i := 0 to n
      invariant forall k :: 0 <= k < a.Length ==> a[k] == if start <= k < start + i then v else old(a[k])
    {
      a[start + i] := v;
    }
  }

  /** Copy the pattern to an even distance from the start of the chroma row. */
  method CopyPattern(uv: array<byte>, dst: nat, pattern: UvPattern, ghost base: nat)
    requires pattern.Valid() && pattern.pat != uv && dst + 128 <= uv.Length
    requires base <= dst && (dst - base) % 2 == 0
    modifies uv
    ensures pattern.Valid() && uv[..] == FilledUv(old(uv[..]), base, dst, dst + 128, pattern.cached)
  {
    for i := 0 to 128
      invariant pattern.Valid()
      invariant forall k :: 0 <= k < uv.Length ==>
                  uv[k] == if dst <= k < dst + i then Chroma(k - base, pattern.cached) else old(uv[k])
    {
      assert Chroma(i, pattern.cached) == Chroma(dst + i - base, pattern.cached);
      uv[dst + i] := pattern.pat[i];
    }
  }

  method WritePair(uv: array<byte>, dst: nat, c: Color, ghost base: nat)
    requires dst + 2 <= uv.Length && base <= dst && (dst - base) % 2 == 0
    modifies uv
    ensures uv[..] == FilledUv(old(uv[..]), base, dst, dst + 2, c)
  {
    assert Chroma(dst - base, c) == c.u && Chroma(dst + 1 - base, c) == c.v;
    uv[dst] := c.u;
    uv[dst + 1] := c.v;
    assert uv[..] == FilledUv(old(uv[..]), base, dst, dst + 2, c);
  }

  lemma FilledUvJoin(uv: seq<byte>, base: int, lo: int, mid: int, hi: int, c: Color)
    requires lo <= mid <= hi
    ensures FilledUv(FilledUv(uv, base, lo, mid, c), base, mid, hi, c) == FilledUv(uv, base, lo, hi, c)
  {
  }

  lemma FilledUvEmpty(uv: seq<byte>, base: int, lo: int, c: Color)
    ensures FilledUv(uv, base, lo, lo, c) == uv
  {
  }

  /** The places the fill visits: even steps from the start of the run, within it. */
  ghost predicate InSteps(base: int, start: int, n: nat, dst: int) {
    base <= start <= dst <= start + n && (start - base) % 2 == 0 && (dst - start) % 2 == 0
  }

  lemma EvenSteps(base: nat, start: nat, n: nat, gone: int, left: int)
    requires (gone == 0 && base <= start && (start - base) % 2 == 0) || InSteps(base, start, n, start + gone)
    requires gone + left == n
    ensures InSteps(base, start, n, start + gone) && start <= start + gone && 0 <= left && (start + gone - base) % 2 == 0
    ensures left >= 128 ==> InSteps(base, start, n, start + gone + 128)
    ensures left >= 2 ==> InSteps(base, start, n, start + gone + 2)
    ensures left < 2 ==> gone == n - n % 2
  {
  }

  /** Fill n bytes of chroma from an even distance: whole patterns, then pairs; an odd last byte is left. */
  method FillChroma(uv: array<byte>, start: nat, n: nat, c: Color, pattern: UvPattern, ghost base: nat)
    requires pattern.Valid() && pattern.cached == c && pattern.pat != uv
    requires base <= start && (start - base) % 2 == 0 && start + n <= uv.Length + 1 && start + n - n % 2 <= uv.Length
    modifies uv
    ensures pattern.Valid()
    ensures uv[..] == FilledUv(old(uv[..]), base, start, start + n - n % 2, c)
  {
    ghost var was := uv[..];
    var dst := FillPatterns(uv, start, n, c, pattern, base);
    var uvBytes := start + n - dst;
    while uvBytes >= 2
      invariant dst + uvBytes == start + n && InSteps(base, start, n, dst)
      invariant uv[..] == FilledUv(was, base, start, dst, c)
    {
      hide *;
      EvenSteps(base, start, n, dst - start, uvBytes);
      WritePair(uv, dst, c, base);
      FilledUvJoin(was, base, start, dst, dst + 2, c);
      dst := dst + 2;
      uvBytes := uvBytes - 2;
    }
    EvenSteps(base, start, n, dst - start, uvBytes);
    hide *;
  }

  method FillPatterns(uv: array<byte>, start: nat, n: nat, c: Color, pattern: UvPattern, ghost base: nat) returns (dst: nat)
    requires pattern.Valid() && pattern.cached == c && pattern.pat != uv
    requires base <= start && (start - base) % 2 == 0 && start + n - n % 2 <= uv.Length
    modifies uv
    ensures pattern.Valid() && InSteps(base, start, n, dst)
    ensures uv[..] == FilledUv(old(uv[..]), base, start, dst, c)
  {
    var uvBytes := n;
    dst := start;
    ghost var was := uv[..];
    FilledUvEmpty(was, base, start, c);
    EvenSteps(base, start, n, 0, n);
    hide *;
    while uvBytes >= 128
      invariant dst + uvBytes == start + n && InSteps(base, start, n, dst)
      invariant pattern.Valid() && uv[..] == FilledUv(was, base, start, dst, c)
    {
      EvenSteps(base, start, n, dst - start, uvBytes);
      CopyPattern(uv, dst, pattern, base);
      FilledUvJoin(was, base, start, dst, dst + 128, c);
      dst := dst + 128;
      uvBytes := uvBytes - 128;
    }
  }

  function Min(a: int, b: int): int { if a <= b then a else b }
  function Max(a: int, b: int): int { if a <= b then b else a }

  /** The fast horizontal line has exactly the effect of setting its pixels one by one. */
  method DrawHorizLine(fb: FrameBuf, x1in: int, x2in: int, y: int, c: Color, pattern: UvPattern)
    requires fb.Usable() && pattern.Valid() && pattern.pat != fb.uv && pattern.pat != fb.y
    modifies fb.y, fb.uv, pattern`cached, pattern.pat
    ensures pattern.Valid()
    ensures fb.Now() == PlotRow(fb.d, old(fb.Now()), Min(x1in, x2in), Max(x1in, x2in), y, c)
  {
    ghost var p := fb.Now();
    if y < 0 || y >= fb.d.height {
      RowOffScreen(fb.d, p, Min(x1in, x2in), Max(x1in, x2in), y, c);
      return;
    }
    var x1, x2 := x1in, x2in;
    if x1 > x2 {
      x1, x2 := x2, x1;
    }
    RowClipped(fb.d, p, x1, x2, y, c);
    x1 := if x1 < 0 then 0 else x1;
    x2 := if x2 >= fb.d.width then fb.d.width - 1 else x2;
    if x1 > x2 {
      return;
    }
    DrawClippedLine(fb, x1, x2, y, c, pattern);
  }

  lemma EvenSpan(x1: nat, x2: nat)
    requires x1 <= x2
    ensures Even(x1) % 2 == 0 && Even(x1) <= x1
    ensures var n := x2 - Even(x1) + 2; n - n % 2 == Even(x2) + 2 - Even(x1) && n <= Even(x2) + 3 - Even(x1)
  {
  }

  /** The bytes a clipped row covers: x2 - x1 + 1 of luma; chroma from the pair of x1 to the pair of x2. */
  lemma ClippedBytes(d: Dims, ySize: nat, uvSize: nat, x1: nat, x2: nat, y: nat)
    requires Fits(d, ySize, uvSize) && y < d.height && x1 <= x2 < d.width
    ensures YOff(d, 0, y) + x2 + 1 <= ySize
    ensures UvOff(d, 0, y) + Even(x2) + 2 <= uvSize
    ensures UvOff(d, 0, y) == Idx(d.stride, 0, y / 2)
    ensures Even(x1) % 2 == 0 && Even(x1) <= x1
    ensures var n := x2 - Even(x1) + 2; n - n % 2 == Even(x2) + 2 - Even(x1) && n <= Even(x2) + 3 - Even(x1)
  {
    PixelFits(d, ySize, uvSize, x2, y);
    IdxShift(d.stride, x2, y);
    IdxShift(d.stride, Even(x2), y / 2);
    assert UvOff(d, 0, y) == Idx(d.stride, 0, y / 2) && UvOff(d, x2, y) == Idx(d.stride, Even(x2), y / 2);
    hide *;
    EvenSpan(x1, x2);
  }

  method DrawClippedLine(fb: FrameBuf, x1: nat, x2: nat, y: nat, c: Color, pattern: UvPattern)
    requires fb.Usable() && pattern.Valid() && pattern.pat != fb.uv && pattern.pat != fb.y
    requires y < fb.d.height && x1 <= x2 < fb.d.width
    modifies fb.y, fb.uv, pattern`cached, pattern.pat
    ensures pattern.Valid()
    ensures fb.Now() == PlotRow(fb.d, old(fb.Now()), x1, x2, y, c)
  {
    ghost var p := fb.Now();
    assert fb.y != fb.uv;
    hide FilledY, FilledUv, PlotRow, Fits, Idx, YOff, UvOff, Even, UvPattern.Valid;
    ClippedBytes(fb.d, fb.y.Length, fb.uv.Length, x1, x2, y);
    Memset(fb.y, YOff(fb.d, 0, y) + x1, x2 - x1 + 1, c.y);
    FillChromaRow(fb, x1, x2, y, c, pattern);
    RowFilled(fb.d, p, x1, x2, y, c);
  }

  method FillChromaRow(fb: FrameBuf, x1: nat, x2: nat, y: nat, c: Color, pattern: UvPattern)
    requires fb.Usable() && pattern.Valid() && pattern.pat != fb.uv
    requires y < fb.d.height && x1 <= x2 < fb.d.width
    modifies fb.uv, pattern`cached, pattern.pat
    ensures pattern.Valid()
    ensures var base := UvOff(fb.d, 0, y);
            fb.uv[..] == FilledUv(old(fb.uv[..]), base, base + Even(x1), base + Even(x2) + 2, c)
  {
    ClippedBytes(fb.d, fb.y.Length, fb.uv.Length, x1, x2, y);
    hide *;
    var uvRow, uvStart := Idx(fb.d.stride, 0, y / 2), Even(x1);
    var uvBytes := x2 - uvStart + 2;
    pattern.Get(c);
    FillChroma(fb.uv, uvRow + uvStart, uvBytes, c, pattern, uvRow);
  }

  /** The pixel's luma byte and the two chroma bytes of its pair have the colour, and no other byte has changed. */
  ghost predicate PixelSet(d: Dims, p: Planes, q: Planes, x: int, y: int, c: Color) {
    && |q.y| == |p.y| && |q.uv| == |p.uv|
    && if 0 <= x < d.width && 0 <= y < d.height then
         var at, pair := y * d.stride + x, (y / 2) * d.stride + x - x % 2;
         && at < |q.y| && pair + 1 < |q.uv|
         && (forall k: nat | k < |q.y| :: q.y[k] == if k == at then c.y else p.y[k])
         && (forall k: nat | k < |q.uv| :: q.uv[k] == if k == pair then c.u else if k == pair + 1 then c.v else p.uv[k])
       else q == p
  }

  lemma PixelIsSet(d: Dims, p: Planes, x: int, y: int, c: Color)
    requires Fits(d, |p.y|, |p.uv|)
    ensures PixelSet(d, p, Plot(d, p, x, y, c), x, y, c)
  {
    if OnScreen(d, x, y) {
      OffsetsAre(d, x, y);
      PixelFits(d, |p.y|, |p.uv|, x, y);
    }
    hide YOff, UvOff, Fits;
  }

  /** Setting one pixel. */
  method SetPixel(fb: FrameBuf, x: int, y: int, c: Color)
    requires fb.Usable()
    modifies fb.y, fb.uv
    ensures fb.Now() == Plot(fb.d, old(fb.Now()), x, y, c)
    ensures PixelSet(fb.d, old(fb.Now()), fb.Now(), x, y, c)
  {
    PixelIsSet(fb.d, fb.Now(), x, y, c);
    if x < 0 || x >= fb.d.width || y < 0 || y >= fb.d.height {
      return;
    }
    PixelFits(fb.d, fb.y.Length, fb.uv.Length, x, y);
    fb.y[Idx(fb.d.stride, x, y)] := c.y;
    var uvOff := Idx(fb.d.stride, Even(x), y / 2);
    fb.uv[uvOff] := c.u;
    fb.uv[uvOff + 1] := c.v;
  }
}
