/** The lighting modes and the mode dispatch of Renderer::PixelShading.
    The Lambert term (light intensity times the diffuse sample over pi) and the
    Phong term (specular sample times cosAlpha to the power gloss*25) are float
    arithmetic on texture samples; they enter here as given colours. */
module Shading {
  import opened Geometry

  /** Renderer::LightingMode, in declaration (and cycle) order. */
  datatype LightingMode = ObservedArea | Diffuse | Specular | Combined

  const InitialLightingMode: LightingMode := ObservedArea

  /** static_cast<int>(mode) */
  function ModeIndex(m: LightingMode): (i: nat)
    ensures i < 4
  {
    match m
    case ObservedArea => 0
    case Diffuse => 1
    case Specular => 2
    case Combined => 3
  }

  /** LightingMode{ i } */
  function ModeOf(i: nat): (m: LightingMode)
    requires i < 4
    ensures ModeIndex(m) == i
  {
    if i == 0 then ObservedArea else if i == 1 then Diffuse else if i == 2 then Specular else Combined
  }

  /** The mode CycleLightingMode moves to: ++mode %= 4. */
  function Next(m: LightingMode): LightingMode
  {
    ModeOf((ModeIndex(m) + 1) % 4)
  }

  /** Cycling steps through the four modes in declaration order and wraps. */
  lemma CycleOrder()
    ensures Next(ObservedArea) == Diffuse && Next(Diffuse) == Specular
    ensures Next(Specular) == Combined && Next(Combined) == ObservedArea
  {
  }

  /** Four cycles restore any mode, and fewer never do. */
  lemma FourCyclesRestore(m: LightingMode)
    ensures Next(Next(Next(Next(m)))) == m
    ensures Next(m) != m && Next(Next(m)) != m && Next(Next(Next(m))) != m
  {
    CycleOrder();
    match m
    case ObservedArea =>
    case Diffuse =>
    case Specular =>
    case Combined =>
  }

  /** The fixed light direction of PixelShading. */
  const LightDirection: Vec3 := Vec3(-0.577, 0.577, -0.577)

  /** The flat ambient term added in Combined mode. */
  const Ambient: Rgb := Rgb(0.025, 0.025, 0.025)

  /** Normal mapping: the sampled normal expressed in the basis
      (tangent, binormal = normal x tangent, normal). */
  function MappedNormal(normal: Vec3, tangent: Vec3, sampled: Vec3): Vec3
  {
    Add3(Add3(Scale3(sampled.x, tangent), Scale3(sampled.y, Cross3(normal, tangent))),
         Scale3(sampled.z, normal))
  }

  /** cosAngle = Dot(normal, lightDirection) */
  function CosAngle(normal: Vec3): real
  {
    Dot3(normal, LightDirection)
  }

  /** The switch over the lighting mode. ObservedArea reports the cosine as it is,
      negative values included; every other mode is black when the surface faces
      away from the light. */
  function ModeColor(mode: LightingMode, cosAngle: real, lambert: Rgb, specular: Rgb): (r: Rgb)
    ensures mode == ObservedArea ==> r == Gray(cosAngle)
    ensures mode != ObservedArea && cosAngle < 0.0 ==> r == Black
    ensures mode == Diffuse && cosAngle >= 0.0 ==> r == MulRgb(lambert, Gray(cosAngle))
    ensures mode == Specular && cosAngle >= 0.0 ==> r == MulRgb(specular, Gray(cosAngle))
  {
    match mode
    case ObservedArea => Gray(cosAngle)
    case Diffuse => if cosAngle < 0.0 then Black else MulRgb(lambert, Gray(cosAngle))
    case Specular => if cosAngle < 0.0 then Black else MulRgb(specular, Gray(cosAngle))
    case Combined =>
      if cosAngle < 0.0 then Black else MulRgb(AddRgb(AddRgb(lambert, specular), Ambient), Gray(cosAngle))
  }

  /** Renderer::PixelShading: the normal-mapped normal always replaces the
      pixel's normal before the cosine is taken. */
  function PixelShading(mode: LightingMode, normal: Vec3, tangent: Vec3, sampledNormal: Vec3,
                        lambert: Rgb, specular: Rgb): Rgb
  {
    ModeColor(mode, CosAngle(MappedNormal(normal, tangent, sampledNormal)), lambert, specular)
  }

  /** Combined is the sum of the Diffuse and Specular outputs and the ambient
      term, all scaled by the same cosine. */
  lemma CombinedIsSum(cosAngle: real, lambert: Rgb, specular: Rgb)
    requires cosAngle >= 0.0
    ensures ModeColor(Combined, cosAngle, lambert, specular) ==
            AddRgb(AddRgb(ModeColor(Diffuse, cosAngle, lambert, specular),
                          ModeColor(Specular, cosAngle, lambert, specular)),
                   MulRgb(Ambient, Gray(cosAngle)))
  {
  }

  /** Render hands PixelShading a pixel whose normal is never written, so the
      basis degenerates: the shading normal is the tangent scaled by the
      sample's first channel. */
  lemma ZeroNormalShading(tangent: Vec3, sampledNormal: Vec3)
    ensures MappedNormal(Zero3, tangent, sampledNormal) == Scale3(sampledNormal.x, tangent)
  {
  }

  /** PixelShading end to end on the pixel Render hands it (normal never stored,
      so zero): the cosine is the sample's first channel times the tangent's
      alignment with the light, and the mode switch acts on that cosine. In
      particular every mode but ObservedArea is black when that product is
      negative. */
  lemma ZeroNormalPixelShading(mode: LightingMode, tangent: Vec3, sampledNormal: Vec3, lambert: Rgb, specular: Rgb)
    ensures PixelShading(mode, Zero3, tangent, sampledNormal, lambert, specular) ==
            ModeColor(mode, sampledNormal.x * Dot3(tangent, LightDirection), lambert, specular)
    ensures mode != ObservedArea && sampledNormal.x * Dot3(tangent, LightDirection) < 0.0 ==>
            PixelShading(mode, Zero3, tangent, sampledNormal, lambert, specular) == Black
  {
    ZeroNormalShading(tangent, sampledNormal);
    var s, t, l := sampledNormal.x, tangent, LightDirection;
    assert Dot3(Scale3(s, t), l) == s * Dot3(t, l) by {
      assert Dot3(Scale3(s, t), l) == s * t.x * l.x + s * t.y * l.y + s * t.z * l.z;
    }
  }
}
