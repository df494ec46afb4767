# prismatic-visualizer: the colour grid and the debug texture

prismatic-visualizer draws colour models in 3D with Bevy. This project
models the two deterministic parts of it:

- **The colour-grid generator** (`src/visualization.rs`). It walks an
  `a × b × c` integer grid whose step counts are the settings' `hcl_adjust`
  and emits:
  - one sample colour per cell (`generate_point_colors`);
  - one quad per cell (`generate_quads`), whose four corners come from the
    slicing method's offset table (`SlicingMethod::get_offsets`).

  Each quad becomes a two-triangle mesh (`create_quad`). Every corner
  colour is turned into a position and a display colour by
  `get_point_and_color`.
- **The debug texture** (`src/main.rs`). `uv_debug_texture` fills a 12-pixel
  RGBA palette from the spherical HSV colour function
  (`hsv_spherical_rgb`). It copies the palette into each row of a 12 × 12
  image and rotates the palette right by one pixel after every row.

## How the model is built

Modules:
- `Primitives` holds Rust's `u8`.
- `ColorCrate` is the interface of the external colour crate
  (`prismatic_color`). Each crate call the visualizer makes is an
  uninterpreted function field of one `ColorCrate` value, and no law about
  any of them is assumed.
- `GridWalk` specifies the triple nested loop once. `Cells(f, r)` is
  everything the loops emit, in order. `Position(r, a, b, c)` is the
  row-major slot of a cell.
- `Visualization` holds the generator, the quad mesh and the
  position/colour dispatch.
- `Texture` holds the palette, the rotation and the texture buffer.

The two generators are methods whose loops (`GridWalk.Collect`, with one
method per loop level) are proved equal to `Cells`. Lemmas then give:
- the number of items;
- where each cell's item lands;
- the closed form of every coordinate.

`uv_debug_texture` is a method over arrays:
- the palette fill loop;
- `copy_from_slice` into each row;
- an in-place `rotate_right(4)`.

It is proved to produce `Rows(InitialPalette(trig), 12)`, which is row `y`
= the palette rotated `y` pixels. Lemmas about `Rows` give:
- the byte formula;
- the alpha bytes;
- that the palette comes back to its starting state after 12 rotations.

Coordinates are exact reals. The grid steps `1. / steps` are `Step(steps)`.

The offset tables are followed as the code writes them. The code holds
these components at zero:
- Radial: component 0;
- Concentric: component 1;
- Axial: component 2.

The comments on the `SlicingMethod` variants (`src/visualization.rs:41-43`)
describe Axial as holding chroma and Concentric as holding lightness. That
does not match the tables in `get_offsets`, where Concentric holds component
1 and Axial holds component 2.

A quad corner is always a grid coordinate (`QuadCornerIsGridPoint`), but it
can fall outside the sample cells. In HWB mode quads extend down the axes
their slicing method varies:
- Radial and Axial slicing vary b. A quad of the first b layer then has
  corners at b = 0, where no sample is drawn.
- Radial and Concentric slicing vary c. The c loop starts at 2, which keeps
  every corner at c ≥ 1.
- Concentric quads never move along b, and Axial quads never move along c.

The code is modelled as written.

## Model

| member | source | states |
|---|---|---|
| GridWalk.Line | src/visualization.rs:166-179 | the inner loop over the Rust range `cLo..cHi` emits exactly one value per `c` in it: `cHi - cLo` values, and none when `cHi <= cLo` |
| GridWalk.Cells | src/visualization.rs:164-181 | the three nested loops emit `Count(r)` values, the product of the three range widths |
| GridWalk.Collect | src/visualization.rs:164-181 | the nested `for` loops that push into a vector produce exactly `Cells(f, r)` |
| GridWalk.PushPlane | src/visualization.rs:165-180 | one run of the middle loop appends the plane of cells for a fixed `a`, and nothing else |
| GridWalk.PushLine | src/visualization.rs:166-179 | one run of the inner loop appends the line of cells `f(a, b, c)` for `c` in `cLo..cHi` in increasing order (`cHi - cLo` of them, none for an empty range) for a fixed `a` and `b`, and nothing else |
| GridWalk.PlaneLength | src/visualization.rs:165-180 | the middle loop for one `a` emits `width(b) * width(c)` values |
| GridWalk.WalkLength | src/visualization.rs:164-181 | after `a` outer iterations, `a` whole planes have been emitted |
| GridWalk.WalkAt | src/visualization.rs:164-181 | cell `(a, b, c)` is emitted at row-major position `Position(r, a, b, c)` |
| GridWalk.CellsAt | src/visualization.rs:164-181 | every visited cell's value is at its row-major position of the output |
| GridWalk.PositionOrder | src/visualization.rs:164-166 | one cell comes out before another iff `(a, b, c)` is lexicographically smaller, so no two cells share a slot |
| Visualization.GetOffsets | src/visualization.rs:47-68 | four offsets, the first `[0,0,0]`, every entry 0 or 1; the held axis is 0 in all four and the others are 1 in offset 2; consecutive offsets, 3 back to 0 included, differ in one axis; offset 2 = offset 1 + offset 3 |
| Visualization.GeneratePointColors | src/visualization.rs:154-184 | the points are the grid walk over `0..a_steps`, `hwb..b_steps+hwb`, `hwb..c_steps+hwb`; there are `a_steps*b_steps*c_steps` of them; cell `(a,b,c)` at its row-major slot is `into_color((a/a_steps, b/b_steps + yuv, c/c_steps + yuv, 1))` |
| Visualization.PointsLayout | src/visualization.rs:164-178 | the point list has one colour per grid cell, each at its row-major position |
| Visualization.PointCount | src/visualization.rs:164-166 | the point walk visits `a_steps * b_steps * c_steps` cells, whichever `hwb_offset` is |
| Visualization.PointAt | src/visualization.rs:168-178 | the colour at the slot of cell `(a,b,c)` is the crate colour of that cell's coordinate |
| Visualization.PointInUnitCube | src/visualization.rs:157-175 | every sample coordinate is in `[0,1)` on a and in `[yuv, 1+yuv]` on b and c, with alpha 1; in HWB mode b and c are strictly above `yuv` |
| Visualization.SliderStepsFit | src/ui.rs:93-101 | the slider ranges keep `steps + hwb_offset` within u8 and make every step `1/steps` positive |
| Visualization.DefaultGridSizes | src/ui.rs:38-39 | with the default HWB steps `(12, 8, 8)` there are 768 samples and 672 quads |
| Visualization.GenerateQuads | src/visualization.rs:186-220 | the quads are the grid walk with the c loop starting at `2*hwb_offset`; there are `a_steps*b_steps*max(c_steps - hwb_offset, 0)` of them; each cell's quad is at its row-major slot |
| Visualization.QuadsLayout | src/visualization.rs:199-215 | the quad list has one quad per cell of the quad ranges, each at its row-major position |
| Visualization.QuadCount | src/visualization.rs:195-201 | the quad walk visits `a_steps * b_steps * max(c_steps - hwb_offset, 0)` cells |
| Visualization.QuadCornerIsGridPoint | src/visualization.rs:196-211 | corner `n` of cell `(a,b,c)` is the grid coordinate of cell `(a + o.a, b + dir*o.b, c + dir*o.c)`, where `dir` is +1 in chroma-luma mode and -1 otherwise |
| Visualization.QuadCornerZeroIsPoint | src/visualization.rs:203-211 | corner 0 of every quad is the colour of its own cell's sample point |
| Visualization.HwbSingleLayerHasNoQuads | src/visualization.rs:195-201 | in HWB mode with at most one c step, `generate_quads` emits nothing |
| Visualization.ChromaLumaQuadPerPoint | src/visualization.rs:199-201 | in chroma-luma mode there are as many quads as sample points |
| Visualization.QuadCornerInUnitCube | src/visualization.rs:203-211 | every corner of every emitted quad is in `[0,1]` on a and in `[yuv, 1+yuv]` on b and c, with alpha 1 |
| Visualization.HwbOffset | src/visualization.rs:162 | definition, no contract: `hwb_offset` is 0 in chroma-luma mode and 1 otherwise (the same rule at line 195) |
| Visualization.YuvOffset | src/visualization.rs:157 | definition, no contract: the b and c coordinates are shifted by -0.5 iff the colour model is luma-chroma, else by 0 (the same rule at line 197) |
| Visualization.QuadDirection | src/visualization.rs:196 | definition, no contract: quads extend by +1 along b and c in chroma-luma mode and by -1 otherwise |
| Visualization.PointRanges | src/visualization.rs:164-166 | definition, no contract: the sample loops run over `0..a_steps`, `hwb..b_steps+hwb` and `hwb..c_steps+hwb` |
| Visualization.QuadRanges | src/visualization.rs:199-201 | definition, no contract: the quad loops are the same except that c starts at `2*hwb` |
| Visualization.PointCoord | src/visualization.rs:169-174 | definition, no contract: cell `(a,b,c)` has coordinate `(a/a_steps, b/b_steps + yuv, c/c_steps + yuv, 1)` |
| Visualization.QuadCorner | src/visualization.rs:204-209 | definition, no contract: the corner at offset `o` is `((a+o.a)/a_steps, (b+o.b*dir)/b_steps + yuv, (c+o.c*dir)/c_steps + yuv, 1)` |
| Visualization.QuadAt | src/visualization.rs:203-214 | definition, no contract: the quad of cell `(a,b,c)` holds the crate colours of its four corners, in offset-table order |
| Visualization.SpacePoint | src/visualization.rs:289 | definition, no contract: a colour is re-expressed in the colour-space model and moved from the colour space to XYZ (the same chain at lines 316-317) |
| Visualization.Orient | src/visualization.rs:290-295 | definition, no contract: the rotation is none, clockwise or counterclockwise by setting, then a mirror iff `model_mirrored` |
| Visualization.DisplayColor | src/visualization.rs:300-312 | definition, no contract: raw RGB, remapped with chroma = component 1 of the base colour (line 286) and the component limits, then gamma-transformed |
| Visualization.GammaExponents | src/visualization.rs:277-283 | the exponents are `1/2.2` each when the space is deformed, otherwise `gamma_i / 2.2` |
| Visualization.PointAndColor | src/visualization.rs:276-323 | the colour is always the remapped (chroma = component 1 of the base), gamma-transformed raw RGB. Without deformation the position is the XYZ transform of the base colour, then the rotation, then a mirror when mirrored. With deformation the position is the XYZ transform of the display colour |
| Visualization.ColorIgnoresPlacement | src/visualization.rs:300-312 | the display colour depends only on the base colour, the component limits and the gamma settings |
| Visualization.DeformIgnoresOrientation | src/visualization.rs:314-320 | with a deformed space neither rotation, mirroring nor the gamma setting changes the result |
| Visualization.PlainPlacement | src/visualization.rs:288-298 | with no rotation, mirror or deformation, the position is the plain XYZ transform of the base colour |
| Visualization.QuadIndices | src/visualization.rs:268-273 | six indices, all below 4, forming two triangles that share exactly corners 0 and 2 and together cover all four corners, each wound in the corner cycle's order |
| Visualization.CreateQuad | src/visualization.rs:222-274 | positions follow corner order; colours are corner 0's four times when `discrete_color` is set, else each corner's own; four `(1,1,1)` normals; the index buffer `0,1,2, 2,3,0` |
| Visualization.DiscreteQuadIsFlat | src/visualization.rs:241-248 | a discrete-colour quad is drawn in one colour, the display colour of its cell's sample point |
| Texture.HueSector | src/main.rs:159-167 | the hue falls in one of the three thirds |
| Texture.RotateTriple | src/main.rs:159-167 | a cyclic shift of a triple keeps its three values in the same cyclic order |
| Texture.HsvSphericalRgb | src/main.rs:148-168 | the result is the triple `(a,b,c)` shifted cyclically once per hue third: `(a,b,c)`, then `(c,a,b)`, then `(b,c,a)` |
| Texture.PaletteHueSectors | src/main.rs:120 | palette pixel `n` (hue `n/12`) falls in hue third `n / 4` |
| Texture.CastToU8 | src/main.rs:121-123 | `f32 as u8` truncates toward zero inside the range and saturates at 0 and 255 |
| Texture.PaletteByte | src/main.rs:120-124 | definition, no contract: byte `i` is channel `i % 4` of pixel `i / 4`: the scaled and cast colour channels, then alpha 170 |
| Texture.InitialPalette | src/main.rs:117-126 | the palette is 48 bytes long |
| Texture.PixelBytes | src/main.rs:120-124 | the four bytes of pixel `n` are the three scaled channels of the colour function at hue `n/12`, then 170 |
| Texture.PalettePixel | src/main.rs:119-124 | palette pixel `n` is the trig triple at hue `n/12`, shifted `n/4` times, scaled and cast, with alpha 170 |
| Texture.PaletteAlpha | src/main.rs:124 | every palette byte at an index ≡ 3 (mod 4) is 170 |
| Texture.RotatedRight | src/main.rs:133 | `rotate_right(k)` moves the last `k` elements to the front and every other element `k` places right |
| Texture.Rotations | src/main.rs:130-134 | any number of one-pixel rotations keeps the 48-byte length |
| Texture.RotatedSource | src/main.rs:133 | the source index `(j - 4m) mod 48` is a valid palette index |
| Texture.RotateOnce | src/main.rs:133 | one rotation by a pixel brings byte `(j - 4) mod 48` to index `j` |
| Texture.RotationsAt | src/main.rs:130-134 | after `m` rotations byte `j` is the original byte `(j - 4m) mod 48` |
| Texture.SourceKeepsChannel | src/main.rs:133 | rotating by whole pixels never moves a byte to another channel |
| Texture.PaletteRestored | src/main.rs:130-134 | after the 12 rotations of the row loop the palette is back where it started |
| Texture.FullTurns | src/main.rs:130-134 | any multiple of 12 one-pixel rotations is the identity |
| Texture.Rows | src/main.rs:129-134 | `y` rows hold `48y` bytes |
| Texture.RowSlice | src/main.rs:131-132 | bytes `48y .. 48y+48` are exactly row `y`, so the row slices are disjoint and cover the buffer |
| Texture.TextureAt | src/main.rs:130-134 | texture byte `48y + j` is the original palette byte `(j - 4y) mod 48`; row 0 is the unrotated palette |
| Texture.TextureAlpha | src/main.rs:124-133 | every texture byte at an index ≡ 3 (mod 4) is 170 |
| Texture.CopyFromSlice | src/main.rs:132 | `dst[lo..hi].copy_from_slice(src)` replaces exactly that slice with `src` and leaves the rest unchanged |
| Texture.RotateRight | src/main.rs:133 | the in-place rotation leaves the array equal to `RotatedRight` of its old contents |
| Texture.UvDebugTexture | src/main.rs:113-146 | the texture has 576 bytes, and they are the 12 rows of the palette rotated 0 to 11 pixels |
| Texture.FillPalette | src/main.rs:119-126 | the fill loop leaves the palette equal to `InitialPalette` |
| Texture.WritePixel | src/main.rs:120-124 | one fill iteration writes the four bytes of pixel `n` and no other byte |
| Texture.WriteRows | src/main.rs:129-134 | the row loop writes row `y` = palette rotated `y` pixels for every `y`, and leaves the palette as it found it |

## Left out

- Floating point: coordinates, steps, gamma quotients and colour channels are exact reals. f32 rounding of `i * (1/steps)` is not modelled, nor are the `as f32` casts of the gamma quotients or NaN.
- Visualization.GeneratePointColors: requires `BoundsFit`, i.e. that `b_steps + hwb_offset` and `c_steps + hwb_offset` fit in a u8. Rust panics on that overflow in a debug build and wraps at 255 in a release build, and neither is modelled. The GUI sliders (`src/ui.rs:94-101`) keep the step counts at most 48, so the overflow cannot happen (`Visualization.SliderStepsFit`).
- Visualization.GenerateQuads: requires `BoundsFit` for the same u8 sums. The overflow panic or wrap-around is not modelled, for the same reason.
- Visualization.Step: a zero step count gives `+inf` in f32 and 0 here. That axis's loop is then empty, so the value never reaches a coordinate. The GUI sliders never allow 0 (`Visualization.SliderStepsFit`).
- Texture.HsvSphericalRgb: the trigonometry of `hsv_spherical_rgb` is the parameter `trig`. That covers the hue part with its `% 1.0`, `phi`, and the sines and cosines. Only the hue-third rule is modelled exactly.
- Texture.CastToU8: the exact real is truncated, not an f32 value, and the NaN-to-0 case of Rust's cast is not modelled.
- The `prismatic_color` crate is not part of this model: colour-model conversion, space transforms, rotation, mirroring, remapping and gamma transforms are uninterpreted functions with no laws.
- Bevy plumbing: `spawn_spherical_visualization`, `MeshShape::get_shape`, `to_bevy_color`, and `setup`, `rotate` and `system` in `src/main.rs`. They spawn entities, handle assets and draw gizmos. `create_quad` is modelled as the vertex, colour, normal and index data it inserts. The primitive topology and render-asset usage tags are dropped.
- Texture.UvDebugTexture: returns the finished bytes. The `Image::new_fill` wrapper (extent, dimension, format) is not modelled, and neither is the `println!` in the fill loop.
- Texture.RotateRight: Rust's internal in-place rotation algorithm is not modelled. The method copies the array first and then writes every slot, which gives the same final contents.
- `src/camera.rs` and the egui panel of `src/ui.rs` are input handling and widgets. Only the slider ranges (`src/ui.rs:94-101`) and the default step counts (`src/ui.rs:38-39`) are used.
- The settings fields the generator never reads (scales, mesh shape, dimensionality, model category, per-component gamma) are not part of `Visualization.Settings`.
