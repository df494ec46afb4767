/**
  The interface of the external colour crate (`prismatic_color`) that the
  visualizer calls. Its source is not part of this model, so every operation
  is a field of `ColorCrate`: a total function that the model passes around
  and never looks inside. No law (involution of mirroring, identity of a unit
  gamma, ...) is assumed about any of them.
*/
module ColorCrate {

  /** A 4-tuple of colour components `(a, b, c, alpha)`, as the crate's
      tuples and `[f32; 4]` arrays carry them (exact reals here). */
  datatype Coord4 = Coord4(a: real, b: real, c: real, alpha: real)

  /** A point in 3D space (Bevy's `Vec3`). */
  datatype Vec3 = Vec3(x: real, y: real, z: real)

  /** A variant of the crate's `ColorModel` enum, identified by name. */
  datatype ColorModel = ColorModel(name: string)

  /** A variant of the crate's `ColorSpace` enum, identified by name. */
  datatype ColorSpace = ColorSpace(name: string)

  /** The Cartesian space every position is finally expressed in. */
  const XYZ: ColorSpace := ColorSpace("XYZ")

  /** A colour value of the crate: a model tag and its four components.
      Only the crate's operations below produce or inspect one. */
  datatype PColor = PColor(model: ColorModel, components: Coord4)

  /** The crate operations the visualizer uses, left uninterpreted. */
  datatype ColorCrate = ColorCrate(
    // `IntoColor::into_color` on a 4-tuple
    intoColor: (Coord4, ColorModel) -> PColor,
    // `ColorModel::is_luma_chroma`
    isLumaChroma: ColorModel -> bool,
    toRgb: PColor -> PColor,
    toArray: PColor -> Coord4,
    toTuple: PColor -> Coord4,
    toColor: (PColor, ColorModel) -> PColor,
    // `from_space_to_space(from, to)`
    fromSpaceToSpace: (PColor, ColorSpace, ColorSpace) -> PColor,
    rotateClockwise: PColor -> PColor,
    rotateCounterclockwise: PColor -> PColor,
    mirror: PColor -> PColor,
    // `remap_rgb_components(chroma, limit_r, limit_g, limit_b)`
    remapRgbComponents: (PColor, real, real, real, real) -> PColor,
    // `component_gamma_transform(gr, gg, gb)`
    componentGammaTransform: (PColor, real, real, real) -> PColor
  )
}
