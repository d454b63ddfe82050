/** The drawable quad (`vi::gl::sprite`, the later revision): one record that
    is uploaded verbatim to the sprite vertex shader's constant buffer. The
    flat view (`s1`) and the grouped view (`s2`) of the C union name the same
    storage, so one datatype with the flat field names stands for both. */
module Sprites {
  import opened Base

  datatype Sprite = Sprite(
    x: real, y: real, z: real,
    sx: real, sy: real,
    rot: real,
    ox: real, oy: real,
    uv: Uv,
    col: Color,
    nodraw: bool,
    notexture: bool,
    t: Ptr)

  /** The all-zero sprite that `util::zero` produces. */
  const ZERO: Sprite :=
    Sprite(0.0, 0.0, 0.0, 0.0, 0.0, 0.0, 0.0, 0.0, Uv(0.0, 0.0, 0.0, 0.0),
           Color(0.0, 0.0, 0.0, 0.0), false, false, NULL)

  const WHITE: Color := Color(1.0, 1.0, 1.0, 1.0)

  /** `sprite::init(t)`: the smallest change to a zeroed sprite that makes it
      show up when drawn: texture `t`, opaque white, unit scale, full UV. */
  function Init(t: Ptr): (s: Sprite)
    ensures s.t == t && s.col == WHITE && s.sx == 1.0 && s.sy == 1.0 && s.uv == FULL_UV
    ensures s.x == 0.0 && s.y == 0.0 && s.z == 0.0 && s.rot == 0.0 && s.ox == 0.0 && s.oy == 0.0
    ensures !s.nodraw && !s.notexture
  {
    ZERO.(t := t, col := WHITE, sx := 1.0, sy := 1.0, uv := FULL_UV)
  }

  /** Two sprites that agree everywhere except possibly on the texture. */
  predicate SameButTexture(a: Sprite, b: Sprite)
  {
    a.(t := NULL) == b.(t := NULL)
  }

  /** Initialisation does not depend on the texture beyond storing it. */
  lemma InitIndependentOfTexture(t1: Ptr, t2: Ptr)
    ensures SameButTexture(Init(t1), Init(t2))
    ensures Init(t1) == Init(t2) <==> t1 == t2
  {
  }
}

/** The first revision's sprite (`vi::gl::sprite` in viva.h): the texture is an
    index into the registry's texture list, and two reserved indices mark a
    sprite that is not drawn at all and one drawn as a flat colour. */
module LegacySprites {
  import opened Base

  const TEXTURE_INVISIBLE: nat := 999999
  const TEXTURE_BLANK: nat := 999998

  datatype LegacySprite = LegacySprite(
    x: real, y: real, z: real,
    sx: real, sy: real,
    rot: real,
    ox: real, oy: real,
    uv: Uv,
    r: real, g: real, b: real,
    textureIndex: nat,
    fixed: bool)

  const LEGACY_ZERO: LegacySprite :=
    LegacySprite(0.0, 0.0, 0.0, 0.0, 0.0, 0.0, 0.0, 0.0, Uv(0.0, 0.0, 0.0, 0.0),
                 0.0, 0.0, 0.0, 0, false)

  /** `initSprite(s, textureIndex)`: zero the sprite, then set the texture
      index, white, unit scale and the full UV. */
  function InitSprite(textureIndex: nat): (s: LegacySprite)
    ensures s.textureIndex == textureIndex
    ensures s.r == 1.0 && s.g == 1.0 && s.b == 1.0
    ensures s.sx == 1.0 && s.sy == 1.0 && s.uv == FULL_UV
    ensures s.x == 0.0 && s.y == 0.0 && s.z == 0.0 && s.rot == 0.0 && s.ox == 0.0 && s.oy == 0.0
    ensures !s.fixed
  {
    LEGACY_ZERO.(textureIndex := textureIndex, r := 1.0, g := 1.0, b := 1.0,
                 sx := 1.0, sy := 1.0, uv := FULL_UV)
  }

  /** The draw loop's choice of texture for a sprite: the registry entry at
      the sprite's index for ordinary indices, no texture for the sentinels
      and anything above them. */
  function SelectTexture(textureIndex: nat): (t: Option<nat>)
    ensures t.Some? <==> textureIndex < TEXTURE_BLANK
    ensures t.Some? ==> t.value == textureIndex
  {
    if textureIndex < TEXTURE_BLANK then Some(textureIndex) else None
  }

  /** What the sprite shaders make of a texture index: the vertex shader sets
      alpha 0 for TEXTURE_INVISIBLE (the pixel shader discards it) and 0.5 for
      TEXTURE_BLANK (the pixel shader returns the flat colour); anything else
      samples the bound texture. */
  datatype Shading = Discarded | FlatColor | Sampled

  function ShadingOf(textureIndex: nat): (sh: Shading)
    ensures sh == Discarded <==> textureIndex == TEXTURE_INVISIBLE
    ensures sh == FlatColor <==> textureIndex == TEXTURE_BLANK
  {
    if textureIndex == TEXTURE_INVISIBLE then Discarded
    else if textureIndex == TEXTURE_BLANK then FlatColor
    else Sampled
  }

  /** The loop and the shaders agree on the sentinels: up to the invisible
      sentinel, a sprite gets a texture bound exactly when the shader samples
      one. (Indices above TEXTURE_INVISIBLE get no texture bound yet are still
      sampled, from whatever texture was bound last.) */
  lemma SelectionMatchesShading(textureIndex: nat)
    requires textureIndex <= TEXTURE_INVISIBLE
    ensures SelectTexture(textureIndex).Some? <==> ShadingOf(textureIndex) == Sampled
  {
  }

  /** A freshly initialised sprite is drawn with its own texture unless it
      was given one of the sentinels. */
  lemma InitSpriteSelection(textureIndex: nat)
    ensures textureIndex < TEXTURE_BLANK ==>
      SelectTexture(InitSprite(textureIndex).textureIndex) == Some(textureIndex)
    ensures ShadingOf(InitSprite(TEXTURE_INVISIBLE).textureIndex) == Discarded
  {
  }
}
