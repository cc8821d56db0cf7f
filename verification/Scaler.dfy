/** Bilinear image scaling with cached rows (src/gfx.rs:489-565). A source pixel is what
    `get` returns for coordinates inside the source; pixels are 0x00RRGGBB words. */
module Scaler {
  import opened Wrappers

  const ONE: nat := 0x1_0000

  // ---- one pixel ------------------------------------------------------------------------------

  /** Channel `k` of a pixel: 0 blue, 1 green, 2 red. */
  function Channel(p: nat, k: nat): (r: nat)
    requires k < 3
    ensures r < 256
  {
    if k == 0 then p % 256 else if k == 1 then p / 256 % 256 else p / 0x1_0000 % 256
  }

  function Pack(r: nat, g: nat, b: nat): nat { r * 0x1_0000 + g * 256 + b }

  /** The value the code computes for a channel before clamping; `>>` rounds down. */
  function Blend(a: nat, b: nat, f: nat): int { a + (b - a) * f / 0x1_0000 }

  function Clamp(v: int): (r: nat)
    ensures r < 256
  {
    if v < 0 then 0 else if v > 255 then 255 else v
  }

  /** `lerp`: all three channels. */
  function Lerp(a: nat, b: nat, f: nat): nat {
    Pack(Clamp(Blend(Channel(a, 2), Channel(b, 2), f)), Clamp(Blend(Channel(a, 1), Channel(b, 1), f)), Clamp(Blend(Channel(a, 0), Channel(b, 0), f)))
  }

  lemma BlendBetween(a: nat, b: nat, f: nat)
    requires f < ONE
    ensures (if a < b then a else b) <= Blend(a, b, f) <= (if a < b then b else a)
  {
    var d := b - a;
    if d >= 0 {
      assert 0 <= d * f <= d * ONE;
      assert d * f / ONE <= d;
    } else {
      assert d * ONE <= d * f <= 0;
      assert d <= d * f / ONE;
    }
  }

  lemma PackChannels(r: nat, g: nat, b: nat)
    requires r < 256 && g < 256 && b < 256
    ensures Channel(Pack(r, g, b), 2) == r && Channel(Pack(r, g, b), 1) == g && Channel(Pack(r, g, b), 0) == b
  {
    assert Pack(r, g, b) == 256 * (256 * r + g) + b;
    assert Pack(r, g, b) / 256 == 256 * r + g;
    assert Pack(r, g, b) / 0x1_0000 == r;
  }

  /** The clamp never acts, and every channel lies between those it is made of. */
  lemma LerpChannel(a: nat, b: nat, f: nat, k: nat)
    requires f < ONE && k < 3
    ensures Channel(Lerp(a, b, f), k) == Blend(Channel(a, k), Channel(b, k), f)
  {
    BlendBetween(Channel(a, 0), Channel(b, 0), f);
    BlendBetween(Channel(a, 1), Channel(b, 1), f);
    BlendBetween(Channel(a, 2), Channel(b, 2), f);
    PackChannels(Clamp(Blend(Channel(a, 2), Channel(b, 2), f)), Clamp(Blend(Channel(a, 1), Channel(b, 1), f)), Clamp(Blend(Channel(a, 0), Channel(b, 0), f)));
  }

  lemma PackSplit(a: nat)
    requires a < 0x100_0000
    ensures Pack(Channel(a, 2), Channel(a, 1), Channel(a, 0)) == a
  {
    var q := a / 256;
    assert a == 256 * q + a % 256 && q == 256 * (q / 256) + q % 256 && q / 256 == a / 0x1_0000 && q / 256 < 256;
  }

  lemma BlendZero(a: nat, b: nat)
    ensures Blend(a, b, 0) == a
  {
    assert (b - a) * 0 == 0;
  }

  lemma LerpZero(a: nat, b: nat)
    requires a < 0x100_0000
    ensures Lerp(a, b, 0) == a
  {
    PackSplit(a);
    BlendZero(Channel(a, 2), Channel(b, 2));
    BlendZero(Channel(a, 1), Channel(b, 1));
    BlendZero(Channel(a, 0), Channel(b, 0));
  }

  // ---- coordinates ----------------------------------------------------------------------------------

  const U32: nat := 0x1_0000_0000
  const U64: nat := 0x1_0000_0000_0000_0000

  /** Destination position `d` of `dst` in a source of `src`, in 16.16 fixed point; the
      product is taken in 64 bits. */
  function Position(d: nat, src: nat, dst: nat): nat
    requires src > 0 && dst > 1
  {
    d * ONE * (src - 1) % U64 / (dst - 1)
  }

  function First(d: nat, src: nat, dst: nat): nat
    requires src > 0 && dst > 1
  {
    Position(d, src, dst) / ONE % U32
  }

  function Second(d: nat, src: nat, dst: nat): nat
    requires src > 0 && dst > 1
  {
    var next := Position(d, src, dst) / ONE + 1;
    if next < src - 1 then next else src - 1
  }

  /** No product of the mapping exceeds 64 bits. */
  predicate Fits(src: nat, dst: nat)
    requires src > 0 && dst > 1
  {
    (dst - 1) * ONE * (src - 1) < U64
  }

  function Fraction(d: nat, src: nat, dst: nat): (r: nat)
    requires src > 0 && dst > 1
    ensures r < ONE
  {
    Position(d, src, dst) % ONE
  }

  lemma DivBound(a: nat, b: nat, c: nat)
    requires c > 0 && a <= b * c
    ensures a / c <= b
  {
    var q := a / c;
    assert a == c * q + a % c;
    if q > b {
      MulLe(b + 1, q, c);
    }
  }

  lemma MulLe(a: nat, b: nat, c: nat)
    requires a <= b
    ensures a * c <= b * c
  {
  }

  /** While the products fit, every coordinate that is read lies in the source. */
  lemma InSource(d: nat, src: nat, dst: nat)
    requires 0 < src <= U32 && dst > 1 && d < dst && Fits(src, dst)
    ensures First(d, src, dst) < src && Second(d, src, dst) < src
  {
    FitsAt(d, src, dst);
    var k := ONE * (src - 1);
    MulLe(d, dst - 1, k);
    assert k * (dst - 1) == (dst - 1) * k;
    DivBound(d * k, k, dst - 1);
    DivBound(Position(d, src, dst), src - 1, ONE);
  }

  lemma FitsAt(d: nat, src: nat, dst: nat)
    requires src > 0 && dst > 1 && d < dst && Fits(src, dst)
    ensures d * ONE * (src - 1) < U64 && d * ONE * (src - 1) == d * (ONE * (src - 1)) && Position(d, src, dst) == d * (ONE * (src - 1)) / (dst - 1)
  {
    var k := ONE * (src - 1);
    MulLe(d, dst - 1, k);
    assert d * ONE * (src - 1) == d * k && (dst - 1) * ONE * (src - 1) == (dst - 1) * k;
  }

  /** With equal sizes every position is itself, without a fraction. */
  lemma SamePosition(d: nat, n: nat)
    requires 1 < n <= U32 && d < n && Fits(n, n)
    ensures First(d, n, n) == d && Fraction(d, n, n) == 0
  {
    var k := n - 1;
    FitsAt(d, n, n);
    assert d * (ONE * k) == d * ONE * k;
    MulDiv(d * ONE, k);
    assert Position(d, n, n) == d * ONE;
    MulDiv(d, ONE);
  }

  /** The last pixel is read at the last pixel of the source exactly when the products fit. */
  lemma LastAtLast(src: nat, dst: nat)
    requires 0 < src <= U32 && dst > 1
    ensures First(dst - 1, src, dst) == src - 1 <==> Fits(src, dst)
  {
    var k, n := ONE * (src - 1), dst - 1;
    assert n * ONE * (src - 1) == n * k == k * n;
    if Fits(src, dst) {
      MulDiv(k, n);
      MulDiv(src - 1, ONE);
    } else {
      var q := k * n % U64;
      assert q < k * n;
      BelowQuotient(q, k, n);
      assert Position(n, src, dst) == q / n < k;
      BelowQuotient(q / n, src - 1, ONE);
    }
  }

  /** Two sides of 2^24 + 1 pixels are the least equal ones for which they do not: the last pixel
      of the copy is read at the first of the source. */
  lemma PositionWraps()
    ensures !Fits(0x100_0001, 0x100_0001) && First(0x100_0000, 0x100_0001, 0x100_0001) == 0 && Fits(0x100_0000, 0x100_0000)
  {
    assert 0x100_0000 * ONE * 0x100_0000 == U64;
  }

  lemma BelowQuotient(a: nat, b: nat, c: nat)
    requires c > 0 && a < b * c
    ensures a / c < b
  {
    if a / c >= b {
      MulLe(b, a / c, c);
    }
  }

  lemma MulDiv(a: nat, k: nat)
    requires k > 0
    ensures a * k / k == a && a * k % k == 0
  {
    var q, r := a * k / k, a * k % k;
    assert a * k == k * q + r && 0 <= r < k;
    if q < a {
      MulLe(q + 1, a, k);
    } else if q > a {
      MulLe(a + 1, q, k);
    }
  }

  // ---- the simple definition ----------------------------------------------------------------------------

  type Source = (nat, nat) -> nat

  /** Row `y` of the source, stretched to the destination's width, at column `dx`. */
  function RowPixel(get: Source, sw: nat, dw: nat, dx: nat, y: nat): nat
    requires sw > 0 && dw > 1
  {
    Lerp(get(First(dx, sw, dw), y), get(Second(dx, sw, dw), y), Fraction(dx, sw, dw))
  }

  /** The bilinear formula for one destination pixel. */
  function Bilinear(get: Source, sw: nat, sh: nat, dw: nat, dh: nat, dx: nat, dy: nat): nat
    requires sw > 0 && sh > 0 && dw > 1 && dh > 1
  {
    Lerp(RowPixel(get, sw, dw, dx, First(dy, sh, dh)), RowPixel(get, sw, dw, dx, Second(dy, sh, dh)), Fraction(dy, sh, dh))
  }

  /** Every channel lies between the least and the greatest of the four source pixels. */
  lemma ChannelBounds(get: Source, sw: nat, sh: nat, dw: nat, dh: nat, dx: nat, dy: nat, k: nat, lo: nat, hi: nat)
    requires sw > 0 && sh > 0 && dw > 1 && dh > 1 && k < 3
    requires var x0, x1, y0, y1 := First(dx, sw, dw), Second(dx, sw, dw), First(dy, sh, dh), Second(dy, sh, dh);
             && lo <= Channel(get(x0, y0), k) <= hi && lo <= Channel(get(x1, y0), k) <= hi
             && lo <= Channel(get(x0, y1), k) <= hi && lo <= Channel(get(x1, y1), k) <= hi
    ensures lo <= Channel(Bilinear(get, sw, sh, dw, dh, dx, dy), k) <= hi
  {
    var x0, x1, y0, y1 := First(dx, sw, dw), Second(dx, sw, dw), First(dy, sh, dh), Second(dy, sh, dh);
    var fx, fy := Fraction(dx, sw, dw), Fraction(dy, sh, dh);
    LerpBounds(get(x0, y0), get(x1, y0), fx, k, lo, hi);
    LerpBounds(get(x0, y1), get(x1, y1), fx, k, lo, hi);
    LerpBounds(RowPixel(get, sw, dw, dx, y0), RowPixel(get, sw, dw, dx, y1), fy, k, lo, hi);
  }

  lemma LerpBounds(a: nat, b: nat, f: nat, k: nat, lo: nat, hi: nat)
    requires f < ONE && k < 3 && lo <= Channel(a, k) <= hi && lo <= Channel(b, k) <= hi
    ensures lo <= Channel(Lerp(a, b, f), k) <= hi
  {
    LerpChannel(a, b, f, k);
    BlendBetween(Channel(a, k), Channel(b, k), f);
  }

  /** Scaling to the same size changes no 0x00RRGGBB pixel. */
  lemma Identity(get: Source, w: nat, h: nat, dx: nat, dy: nat)
    requires 1 < w <= U32 && 1 < h <= U32 && dx < w && dy < h && Fits(w, w) && Fits(h, h) && get(dx, dy) < 0x100_0000
    ensures Bilinear(get, w, h, w, h, dx, dy) == get(dx, dy)
  {
    SamePosition(dx, w);
    SamePosition(dy, h);
    LerpZero(get(dx, dy), get(Second(dx, w, w), dy));
    LerpZero(RowPixel(get, w, w, dx, dy), RowPixel(get, w, w, dx, Second(dy, h, h)));
  }

  // ---- the fast form ----------------------------------------------------------------------------------------

  /** Row `y` of the scaled image, pixel by pixel. */
  ghost function ImageRow(get: Source, sw: nat, sh: nat, dw: nat, dh: nat, y: nat): (r: seq<nat>)
    requires sw > 0 && sh > 0 && dw > 1 && dh > 1
    ensures |r| == dw
  {
    seq(dw, x requires 0 <= x < dw => Bilinear(get, sw, sh, dw, dh, x, y))
  }

  /** The pixels from `base` on are row `y` of the scaled image. */
  ghost predicate RowIs(s: seq<nat>, base: nat, get: Source, sw: nat, sh: nat, dw: nat, dh: nat, y: nat)
    requires sw > 0 && sh > 0 && dw > 1 && dh > 1
  {
    base + dw <= |s| && s[base..base + dw] == ImageRow(get, sw, sh, dw, dh, y)
  }

  /** The first `rows` rows are done. */
  ghost predicate RowsDone(s: seq<nat>, rows: nat, get: Source, sw: nat, sh: nat, dw: nat, dh: nat)
    requires sw > 0 && sh > 0 && dw > 1 && dh > 1
  {
    forall y: nat :: y < rows ==> RowIs(s, y * dw, get, sw, sh, dw, dh, y)
  }

  /** The cached rows are the source rows `y0` and `y1`, stretched. */
  ghost predicate Cached(top: seq<nat>, bot: seq<nat>, n: nat, get: Source, sw: nat, dw: nat, y0: nat, y1: nat)
    requires sw > 0 && dw > 1
  {
    && n <= |top| && n <= |bot|
    && (forall x: nat :: x < n ==> top[x] == RowPixel(get, sw, dw, x, y0))
    && (forall x: nat :: x < n ==> bot[x] == RowPixel(get, sw, dw, x, y1))
  }

  lemma RowsStep(s: seq<nat>, s2: seq<nat>, rows: nat, base: nat, get: Source, sw: nat, sh: nat, dw: nat, dh: nat)
    requires sw > 0 && sh > 0 && dw > 1 && dh > 1 && base == rows * dw && |s2| == |s|
    requires RowsDone(s, rows, get, sw, sh, dw, dh) && RowIs(s2, base, get, sw, sh, dw, dh, rows)
    requires base <= |s| && s2[..base] == s[..base]
    ensures RowsDone(s2, rows + 1, get, sw, sh, dw, dh)
  {
    forall y: nat | y <= rows ensures RowIs(s2, y * dw, get, sw, sh, dw, dh, y) {
      if y < rows {
        MulLe(y + 1, rows, dw);
        RowKept(s, s2, y * dw, base, get, sw, sh, dw, dh, y);
      }
    }
  }

  lemma RowKept(s: seq<nat>, s2: seq<nat>, b: nat, base: nat, get: Source, sw: nat, sh: nat, dw: nat, dh: nat, y: nat)
    requires sw > 0 && sh > 0 && dw > 1 && dh > 1 && |s2| == |s| && b + dw <= base
    requires RowIs(s, b, get, sw, sh, dw, dh, y) && base <= |s| && s2[..base] == s[..base]
    ensures RowIs(s2, b, get, sw, sh, dw, dh, y)
  {
    assert s2[..base][b..b + dw] == s2[b..b + dw] && s[..base][b..b + dw] == s[b..b + dw];
  }

  /** Blending the cached rows is the bilinear formula. */
  lemma BlendIsRow(s: seq<nat>, base: nat, top: seq<nat>, bot: seq<nat>, get: Source, sw: nat, sh: nat, dw: nat, dh: nat, dy: nat)
    requires sw > 0 && sh > 0 && dw > 1 && dh > 1 && base + dw <= |s|
    requires Cached(top, bot, dw, get, sw, dw, First(dy, sh, dh), Second(dy, sh, dh))
    requires s[base..base + dw] == Blended(top, bot, dw, Fraction(dy, sh, dh))
    ensures RowIs(s, base, get, sw, sh, dw, dh, dy)
  {
    var row := ImageRow(get, sw, sh, dw, dh, dy);
    forall x: nat | x < dw ensures s[base..base + dw][x] == row[x] {
      assert top[x] == RowPixel(get, sw, dw, x, First(dy, sh, dh)) && bot[x] == RowPixel(get, sw, dw, x, Second(dy, sh, dh));
    }
  }

  /** Fills both row caches. */
  method FillRows(get: Source, sw: nat, dw: nat, y0: nat, y1: nat, top: array<nat>, bot: array<nat>)
    requires sw > 0 && dw > 1 && top != bot && top.Length >= dw && bot.Length >= dw
    modifies top, bot
    ensures Cached(top[..], bot[..], dw, get, sw, dw, y0, y1)
  {
    var dx: nat := 0;
    while dx < dw
      invariant dx <= dw && Cached(top[..], bot[..], dx, get, sw, dw, y0, y1)
    {
      var x0, x1, fx := First(dx, sw, dw), Second(dx, sw, dw), Fraction(dx, sw, dw);
      top[dx] := Lerp(get(x0, y0), get(x1, y0), fx);
      bot[dx] := Lerp(get(x0, y1), get(x1, y1), fx);
      dx := dx + 1;
    }
  }

  /** Two rows blended. */
  function Blended(top: seq<nat>, bot: seq<nat>, n: nat, f: nat): (r: seq<nat>)
    requires n <= |top| && n <= |bot|
    ensures |r| == n
  {
    seq(n, x requires 0 <= x < n => Lerp(top[x], bot[x], f))
  }

  /** `s` with its pixels from `base` on replaced by `row`. */
  function Replaced(s: seq<nat>, base: nat, row: seq<nat>): (r: seq<nat>)
    requires base + |row| <= |s|
    ensures |r| == |s| && r[..base] == s[..base] && r[base..base + |row|] == row && r[base + |row|..] == s[base + |row|..]
  {
    s[..base] + row + s[base + |row|..]
  }

  lemma ReplacedStep(s: seq<nat>, base: nat, row: seq<nat>, dx: nat, pixel: nat)
    requires dx < |row| && base + |row| <= |s| && pixel == row[dx]
    ensures Replaced(s, base, row[..dx])[base + dx := pixel] == Replaced(s, base, row[..dx + 1])
  {
  }

  /** Blends the cached rows into one destination row. */
  method BlendRow(n: nat, f: nat, top: array<nat>, bot: array<nat>, dst: array<nat>, base: nat)
    requires dst != top && dst != bot && base + n <= dst.Length && n <= top.Length && n <= bot.Length
    modifies dst
    ensures dst[..] == Replaced(old(dst[..]), base, Blended(top[..], bot[..], n, f))
  {
    ghost var before, goal := dst[..], Blended(top[..], bot[..], n, f);
    var dx: nat := 0;
    while dx < n
      invariant dx <= n && dst[..] == Replaced(before, base, goal[..dx])
    {
      var pixel := Lerp(top[dx], bot[dx], f);
      ReplacedStep(before, base, goal, dx, pixel);
      dst[base + dx] := pixel;
      dx := dx + 1;
    }
    assert goal[..n] == goal;
  }

  /** `scale_pixels`: with fresh or with the caller's row buffers, whatever they held, every
      pixel is the bilinear formula's. A zero size leaves the destination alone. */
  method ScalePixels(get: Source, sw: nat, sh: nat, dst: array<nat>, dw: nat, dh: nat, scratch: Option<(array<nat>, array<nat>)>)
    requires sw == 0 || sh == 0 || dw == 0 || dh == 0 || (dw > 1 && dh > 1)
    requires dst.Length >= dw * dh
    requires scratch.Some? ==> var (top, bot) := scratch.value; top != bot && dst != top && dst != bot && top.Length >= dw && bot.Length >= dw
    modifies dst
    modifies if scratch.Some? then {scratch.value.0, scratch.value.1} else {}
    ensures sw == 0 || sh == 0 || dw == 0 || dh == 0 ==> dst[..] == old(dst[..])
    ensures sw > 0 && sh > 0 && dw > 0 && dh > 0 ==> RowsDone(dst[..], dh, get, sw, sh, dw, dh)
    ensures forall i :: dw * dh <= i < dst.Length ==> dst[i] == old(dst[i])
  {
    if sw == 0 || sh == 0 || dw == 0 || dh == 0 {
      return;
    }
    var top, bot;
    if scratch.Some? {
      top, bot := scratch.value.0, scratch.value.1;
    } else {
      top, bot := new nat[dw](_ => 0), new nat[dw](_ => 0);
    }
    ScaleRows(get, sw, sh, dst, dw, dh, top, bot);
  }

  method ScaleRows(get: Source, sw: nat, sh: nat, dst: array<nat>, dw: nat, dh: nat, top: array<nat>, bot: array<nat>)
    requires sw > 0 && sh > 0 && dw > 1 && dh > 1 && dst.Length >= dw * dh
    requires top != bot && dst != top && dst != bot && top.Length >= dw && bot.Length >= dw
    modifies dst, top, bot
    ensures RowsDone(dst[..], dh, get, sw, sh, dw, dh)
    ensures forall i :: dw * dh <= i < dst.Length ==> dst[i] == old(dst[i])
  {
    var prev: Option<(nat, nat)> := None;
    var dy: nat := 0;
    while dy < dh
      invariant dy <= dh && RowsDone(dst[..], dy, get, sw, sh, dw, dh)
      invariant prev.Some? ==> Cached(top[..], bot[..], dw, get, sw, dw, prev.value.0, prev.value.1)
      invariant forall i :: dw * dh <= i < dst.Length ==> dst[i] == old(dst[i])
    {
      prev := ScaleRow(get, sw, sh, dst, dw, dh, top, bot, prev, dy);
      dy := dy + 1;
    }
  }

  /** One row: the caches are filled again only when their source rows change. */
  method ScaleRow(get: Source, sw: nat, sh: nat, dst: array<nat>, dw: nat, dh: nat, top: array<nat>, bot: array<nat>, prev: Option<(nat, nat)>, dy: nat)
    returns (key: Option<(nat, nat)>)
    requires sw > 0 && sh > 0 && dw > 1 && dh > 1 && dst.Length >= dw * dh && dy < dh
    requires top != bot && dst != top && dst != bot && top.Length >= dw && bot.Length >= dw
    requires prev.Some? ==> Cached(top[..], bot[..], dw, get, sw, dw, prev.value.0, prev.value.1)
    requires RowsDone(dst[..], dy, get, sw, sh, dw, dh)
    modifies dst, top, bot
    ensures RowsDone(dst[..], dy + 1, get, sw, sh, dw, dh)
    ensures key.Some? && Cached(top[..], bot[..], dw, get, sw, dw, key.value.0, key.value.1)
    ensures forall i :: dw * dh <= i < dst.Length ==> dst[i] == old(dst[i])
  {
    var y0, y1 := First(dy, sh, dh), Second(dy, sh, dh);
    key := Some((y0, y1));
    if prev != key {
      FillRows(get, sw, dw, y0, y1, top, bot);
    }
    ghost var before, t, b := dst[..], top[..], bot[..];
    MulLe(dy + 1, dh, dw);
    var base := dy * dw;
    assert base + dw <= dw * dh;
    BlendRow(dw, Fraction(dy, sh, dh), top, bot, dst, base);
    ghost var after := dst[..];
    assert top[..] == t && bot[..] == b;
    BlendIsRow(after, base, t, b, get, sw, sh, dw, dh, dy);
    RowsStep(before, after, dy, base, get, sw, sh, dw, dh);
    forall i | dw * dh <= i < dst.Length ensures dst[i] == old(dst[i]) {
      assert after[base + dw..][i - base - dw] == before[base + dw..][i - base - dw];
    }
  }
}
