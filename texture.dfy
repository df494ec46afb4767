/**
  The debug texture of `src/main.rs`: a 12-pixel RGBA palette sampled from
  the spherical HSV colour function, copied into each of the 12 rows of a
  12 × 12 image and rotated right by one pixel after every row. The
  trigonometry of the colour function is a parameter (`Trig`).
*/
module Texture {
  import opened Primitives

  /** `TEXTURE_SIZE`: the texture is this many pixels wide and high. */
  const TextureSize: nat := 12

  /** One row of RGBA bytes (`TEXTURE_SIZE * 4`), which is also the palette's length. */
  const RowLength: nat := 48

  /** The whole RGBA buffer (`TEXTURE_SIZE * TEXTURE_SIZE * 4`). */
  const TextureLength: nat := 576

  /** The alpha byte of every palette pixel. */
  const Alpha: u8 := 170

  // ---------------------------------------------------------------------------
  // The spherical HSV colour function

  /** A colour triple `(a, b, c)`. */
  datatype Triple = Triple(a: real, b: real, c: real)

  /** The values `a`, `b`, `c` that `hsv_spherical_rgb` computes from
      `(h, s, v)` with sines and cosines, left abstract. */
  type Trig = (real, real, real) -> Triple

  /** `hue_arc_length`: each third of the hue circle has its own channel order. */
  const HueArcLength: real := 1.0 / 3.0

  /** Which third of the hue range `h` falls in. */
  function HueSector(h: real): (n: nat)
    ensures n < 3
  {
    if h < HueArcLength then 0 else if h < 2.0 * HueArcLength then 1 else 2
  }

  /** `r` is `t`, `(c, a, b)` or `(b, c, a)`: the same three values in the
      same cyclic order. */
  predicate IsCyclicShift(r: Triple, t: Triple) {
    r == t || r == Triple(t.c, t.a, t.b) || r == Triple(t.b, t.c, t.a)
  }

  /** `t` shifted cyclically `n` times, each shift taking `(a, b, c)` to `(c, a, b)`. */
  function RotateTriple(t: Triple, n: nat): (r: Triple)
    ensures IsCyclicShift(r, t)
    decreases n
  {
    if n == 0 then t else RotateTriple(Triple(t.c, t.a, t.b), n - 1)
  }

  /** `hsv_spherical_rgb`: the triple `(a, b, c)` in the first hue third,
      `(c, a, b)` in the second and `(b, c, a)` in the last, i.e. always the
      same three values, shifted once per hue third. */
  function HsvSphericalRgb(h: real, s: real, v: real, trig: Trig): (r: Triple)
    ensures r == RotateTriple(trig(h, s, v), HueSector(h))
  {
    var t := trig(h, s, v);
    if h < HueArcLength then Triple(t.a, t.b, t.c)
    else if h < 2.0 * HueArcLength then Triple(t.c, t.a, t.b)
    else
      assert RotateTriple(t, 2) == RotateTriple(Triple(t.c, t.a, t.b), 1) == Triple(t.b, t.c, t.a);
      Triple(t.b, t.c, t.a)
  }

  /** Palette pixel `n` (hue `n / 12`) lies in hue third `n / 4`. */
  lemma PaletteHueSectors(n: nat)
    requires n < TextureSize
    ensures HueSector(n as real / TextureSize as real) == n / 4
  {
    var h := n as real / TextureSize as real;
    assert h * 12.0 == n as real;
    if n < 4 {
      assert h < HueArcLength;
    } else if n < 8 {
      assert HueArcLength <= h < 2.0 * HueArcLength;
    } else {
      assert 2.0 * HueArcLength <= h;
    }
  }

  // ---------------------------------------------------------------------------
  // The palette

  /** Rust's `f32 as u8`: truncation toward zero, saturating at 0 and 255. */
  function CastToU8(x: real): (r: u8)
    ensures 0.0 <= x < 256.0 ==> r as real <= x < r as real + 1.0
    ensures x <= 0.0 ==> r == 0
    ensures 255.0 <= x ==> r == 255
  {
    if x <= 0.0 then 0 else if x >= 255.0 then 255 else x.Floor as u8
  }

  /** Byte `i` of the palette: channel `i % 4` of pixel `i / 4`, with the
      colour channels scaled to 0..=255 and a constant alpha. */
  function PaletteByte(trig: Trig, i: nat): u8
    requires i < RowLength
  {
    var rgb := HsvSphericalRgb((i / 4) as real / TextureSize as real, 1.0, 1.0, trig);
    match i % 4
    case 0 => CastToU8(rgb.a * 255.0)
    case 1 => CastToU8(rgb.b * 255.0)
    case 2 => CastToU8(rgb.c * 255.0)
    case _ => Alpha
  }

  /** The palette as the fill loop leaves it. */
  function InitialPalette(trig: Trig): (p: seq<u8>)
    ensures |p| == RowLength
  {
    seq(RowLength, i requires 0 <= i < RowLength => PaletteByte(trig, i))
  }

  /** Pixel `n` of the palette is the colour function at hue `n / 12`,
      channels in the order of hue third `n / 4`, and alpha 170. */
  lemma PalettePixel(trig: Trig, n: nat)
    requires n < TextureSize
    ensures var p, t := InitialPalette(trig), RotateTriple(trig(n as real / TextureSize as real, 1.0, 1.0), n / 4);
            p[4 * n] == CastToU8(t.a * 255.0) && p[4 * n + 1] == CastToU8(t.b * 255.0) &&
            p[4 * n + 2] == CastToU8(t.c * 255.0) && p[4 * n + 3] == Alpha
  {
    PaletteHueSectors(n);
    var h := n as real / TextureSize as real;
    var rgb := HsvSphericalRgb(h, 1.0, 1.0, trig);
    assert rgb == RotateTriple(trig(h, 1.0, 1.0), n / 4);
    PixelBytes(trig, n);
    var p := InitialPalette(trig);
    assert p[4 * n] == PaletteByte(trig, 4 * n) && p[4 * n + 1] == PaletteByte(trig, 4 * n + 1);
    assert p[4 * n + 2] == PaletteByte(trig, 4 * n + 2) && p[4 * n + 3] == PaletteByte(trig, 4 * n + 3);
  }

  /** The four bytes of pixel `n` come from the colour function at hue `n / 12`. */
  lemma PixelBytes(trig: Trig, n: nat)
    requires n < TextureSize
    ensures var rgb := HsvSphericalRgb(n as real / TextureSize as real, 1.0, 1.0, trig);
            PaletteByte(trig, 4 * n) == CastToU8(rgb.a * 255.0) &&
            PaletteByte(trig, 4 * n + 1) == CastToU8(rgb.b * 255.0) &&
            PaletteByte(trig, 4 * n + 2) == CastToU8(rgb.c * 255.0) &&
            PaletteByte(trig, 4 * n + 3) == Alpha
  {
    assert (4 * n) / 4 == n && (4 * n + 1) / 4 == n && (4 * n + 2) / 4 == n && (4 * n + 3) / 4 == n;
    assert (4 * n) % 4 == 0 && (4 * n + 1) % 4 == 1 && (4 * n + 2) % 4 == 2 && (4 * n + 3) % 4 == 3;
  }

  /** Every fourth palette byte, starting at 3, is the alpha byte 170. */
  lemma PaletteAlpha(trig: Trig, i: nat)
    requires i < RowLength && i % 4 == 3
    ensures InitialPalette(trig)[i] == Alpha
  {
  }

  // ---------------------------------------------------------------------------
  // Rotation

  /** `slice::rotate_right(k)`: the last `k` elements move to the front and
      every other element moves `k` places right. */
  function RotatedRight<T>(s: seq<T>, k: nat): (r: seq<T>)
    requires k <= |s|
    ensures |r| == |s|
    ensures forall i | 0 <= i < k :: r[i] == s[|s| - k + i]
    ensures forall i | k <= i < |s| :: r[i] == s[i - k]
  {
    s[|s| - k..] + s[..|s| - k]
  }

  /** The palette after `m` rotations right by one pixel (4 bytes). */
  function Rotations(p: seq<u8>, m: nat): (r: seq<u8>)
    requires |p| == RowLength
    ensures |r| == RowLength
  {
    if m == 0 then p else RotatedRight(Rotations(p, m - 1), 4)
  }

  /** Adding whole rows does not change a position within the row. */
  lemma ModRow(x: int, q: int)
    ensures (x + 48 * q) % 48 == x % 48
  {
  }

  /** One more rotation by 4 shifts the source index by 4, modulo 48. */
  lemma ModShift(j: int, m: int)
    requires 0 <= j < 48
    ensures RotatedSource(RotatedSource(j, 1), m) == RotatedSource(j, m + 1)
  {
    var j' := RotatedSource(j, 1);
    if j < 4 {
      assert j' == j + 44;
      ModRow(j - 4 * (m + 1), 1);
    } else {
      assert j' == j - 4;
    }
  }

  /** The palette byte that lands at index `j` after `m` rotations. */
  function RotatedSource(j: int, m: int): (r: nat)
    ensures r < 48
  {
    (j - 4 * m) % 48
  }

  /** After `m` rotations, byte `j` holds the original byte `j - 4m`, counted
      modulo the row length. */
  lemma {:induction false} RotationsAt(p: seq<u8>, m: nat, j: nat)
    requires |p| == RowLength && j < RowLength
    ensures Rotations(p, m)[j] == p[RotatedSource(j, m)]
  {
    if m > 0 {
      var j' := RotatedSource(j, 1);
      RotateOnce(Rotations(p, m - 1), j);
      RotationsAt(p, m - 1, j');
      ModShift(j, m - 1);
    }
  }

  /** One rotation by a pixel moves byte `j - 4` (modulo 48) to index `j`. */
  lemma RotateOnce(q: seq<u8>, j: nat)
    requires |q| == RowLength && j < RowLength
    ensures RotatedRight(q, 4)[j] == q[RotatedSource(j, 1)]
  {
    if j < 4 {
      assert RotatedSource(j, 1) == j + 44;
    } else {
      assert RotatedSource(j, 1) == j - 4;
    }
  }

  /** Rotation by whole pixels keeps every byte in its channel. */
  lemma SourceKeepsChannel(j: int, m: int)
    ensures RotatedSource(j, m) % 4 == j % 4
  {
    var q := (j - 4 * m) / 48;
    assert j - 4 * m == 48 * q + RotatedSource(j, m);
    ModFour(j, -m - 12 * q);
  }

  /** Twelve one-pixel rotations of the 12-pixel palette give it back. */
  lemma PaletteRestored(p: seq<u8>)
    requires |p| == RowLength
    ensures Rotations(p, TextureSize) == p
  {
    FullTurns(p, TextureSize);
  }

  /** Any whole number of 12 one-pixel rotations is the identity. */
  lemma FullTurns(p: seq<u8>, m: nat)
    requires |p| == RowLength && m % 12 == 0
    ensures Rotations(p, m) == p
  {
    var q := m / 12;
    assert 4 * m == 48 * q;
    forall j | 0 <= j < RowLength
      ensures Rotations(p, m)[j] == p[j]
    {
      RotationsAt(p, m, j);
      assert j - 4 * m == j + 48 * -q;
      ModRow(j, -q);
    }
  }

  // ---------------------------------------------------------------------------
  // The texture

  /** The first `y` rows of the texture: row `y'` is the palette after `y'` rotations. */
  function Rows(p: seq<u8>, y: nat): (r: seq<u8>)
    requires |p| == RowLength
    ensures |r| == RowLength * y
  {
    if y == 0 then [] else Rows(p, y - 1) + Rotations(p, y - 1)
  }

  /** The bytes `48y .. 48y + 48` of the finished rows are row `y` and
      nothing else: the rows are disjoint and cover the buffer. */
  lemma {:induction false} RowSlice(p: seq<u8>, rows: nat, y: nat)
    requires |p| == RowLength && y < rows
    ensures Rows(p, rows)[RowLength * y..RowLength * (y + 1)] == Rotations(p, y)
  {
    if y < rows - 1 {
      RowSlice(p, rows - 1, y);
      assert Rows(p, rows)[..RowLength * (rows - 1)] == Rows(p, rows - 1);
    } else {
      assert Rows(p, rows)[RowLength * (rows - 1)..] == Rotations(p, rows - 1);
    }
  }

  /** Texture byte `48y + j` is the original palette byte `j - 4y`, modulo 48. */
  lemma TextureAt(p: seq<u8>, y: nat, j: nat)
    requires |p| == RowLength && y < TextureSize && j < RowLength
    ensures Rows(p, TextureSize)[RowLength * y + j] == p[RotatedSource(j, y)]
  {
    RowSlice(p, TextureSize, y);
    assert Rows(p, TextureSize)[RowLength * y + j] == Rotations(p, y)[j];
    RotationsAt(p, y, j);
  }

  /** Every alpha byte of the texture is 170: rotation moves whole pixels,
      so it only ever brings alpha bytes of the palette to alpha positions. */
  lemma TextureAlpha(trig: Trig, i: nat)
    requires i < TextureLength && i % 4 == 3
    ensures Rows(InitialPalette(trig), TextureSize)[i] == Alpha
  {
    var y, j := i / 48, i % 48;
    assert i == RowLength * y + j;
    TextureAt(InitialPalette(trig), y, j);
    ChannelOfRow(i, y, j);
    SourceKeepsChannel(j, y);
    PaletteAlpha(trig, RotatedSource(j, y));
  }

  /** Byte `j` of row `y` is in the same channel as texture byte `48y + j`. */
  lemma ChannelOfRow(i: int, y: int, j: int)
    requires i == 48 * y + j
    ensures j % 4 == i % 4
  {
    ModFour(j, 12 * y);
  }

  /** Adding whole pixels does not change a byte's channel. */
  lemma ModFour(x: int, q: int)
    ensures (x + 4 * q) % 4 == x % 4
  {
  }

  /** `slice[lo..hi].copy_from_slice(src)` on the texture buffer. */
  method CopyFromSlice(dst: array<u8>, lo: nat, hi: nat, src: array<u8>)
    requires lo <= hi <= dst.Length && hi - lo == src.Length && dst != src
    modifies dst
    ensures dst[..] == old(dst[..lo]) + src[..] + old(dst[hi..])
  {
    var j := 0;
    while j < src.Length
      invariant 0 <= j <= src.Length
      invariant dst[..lo] == old(dst[..lo]) && dst[lo + j..] == old(dst[lo + j..])
      invariant dst[lo..lo + j] == src[..j]
    {
      dst[lo + j] := src[j];
      j := j + 1;
    }
    assert dst[..] == dst[..lo] + dst[lo..hi] + dst[hi..];
  }

  /** `slice::rotate_right(k)` in place; Rust panics when `k` exceeds the length. */
  method RotateRight<T>(a: array<T>, k: nat)
    requires k <= a.Length
    modifies a
    ensures a[..] == RotatedRight(old(a[..]), k)
  {
    var n := a.Length;
    var prev := a[..];
    var i := 0;
    while i < n
      invariant 0 <= i <= n
      invariant forall j | 0 <= j < i :: a[j] == RotatedRight(prev, k)[j]
      invariant forall j | i <= j < n :: a[j] == prev[j]
    {
      a[i] := if i < k then prev[n - k + i] else prev[i - k];
      i := i + 1;
    }
  }

  /** `uv_debug_texture`: the palette fill, then one palette copy per row
      with a one-pixel right rotation after each. */
  method UvDebugTexture(trig: Trig) returns (texture: seq<u8>)
    ensures |texture| == TextureLength
    ensures texture == Rows(InitialPalette(trig), TextureSize)
  {
    var palette := new u8[RowLength](_ => 0);
    FillPalette(palette, trig);
    var textureData := new u8[TextureLength](_ => 0);
    WriteRows(textureData, palette);
    texture := textureData[..];
  }

  /** The fill loop of `uv_debug_texture`: four bytes per palette pixel. */
  method FillPalette(palette: array<u8>, trig: Trig)
    requires palette.Length == RowLength
    modifies palette
    ensures palette[..] == InitialPalette(trig)
  {
    for n := 0 to TextureSize
      invariant forall i | 0 <= i < 4 * n :: palette[i] == PaletteByte(trig, i)
    {
      WritePixel(palette, n, trig);
    }
  }

  /** One iteration of the fill loop: the three scaled colour channels of
      pixel `n`, then its alpha byte. */
  method WritePixel(palette: array<u8>, n: nat, trig: Trig)
    requires palette.Length == RowLength && n < TextureSize
    modifies palette
    ensures forall i | 0 <= i < RowLength ::
              palette[i] == if 4 * n <= i < 4 * n + 4 then PaletteByte(trig, i) else old(palette[i])
  {
    var floatColor := HsvSphericalRgb(n as real / TextureSize as real, 1.0, 1.0, trig);
    palette[n * 4] := CastToU8(floatColor.a * 255.0);
    palette[n * 4 + 1] := CastToU8(floatColor.b * 255.0);
    palette[n * 4 + 2] := CastToU8(floatColor.c * 255.0);
    palette[n * 4 + 3] := Alpha;
    PixelBytes(trig, n);
    forall i | 4 * n <= i < 4 * n + 4
      ensures palette[i] == PaletteByte(trig, i)
    {
      assert i == 4 * n || i == 4 * n + 1 || i == 4 * n + 2 || i == 4 * n + 3;
    }
  }

  /** The row loop of `uv_debug_texture`: copy the palette into row `y`,
      then rotate it right by one pixel. It leaves the palette as it found it. */
  method WriteRows(textureData: array<u8>, palette: array<u8>)
    requires textureData.Length == TextureLength && palette.Length == RowLength && textureData != palette
    modifies textureData, palette
    ensures textureData[..] == Rows(old(palette[..]), TextureSize)
    ensures palette[..] == old(palette[..])
  {
    ghost var p0 := palette[..];
    for y := 0 to TextureSize
      invariant palette[..] == Rotations(p0, y)
      invariant textureData[..RowLength * y] == Rows(p0, y)
    {
      var offset := TextureSize * y * 4;
      CopyFromSlice(textureData, offset, offset + TextureSize * 4, palette);
      assert textureData[..RowLength * (y + 1)] == textureData[..offset] + palette[..];
      RotateRight(palette, 4);
    }
    PaletteRestored(p0);
  }
}
