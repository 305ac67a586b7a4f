/**
 * GPU light records (math/light.rs): the `u32` flag word holding the light's type bit and
 * its Visible/CastShadow bits, `Light::default`, and the `as_light` conversion of each
 * light component. Colours, intensities, ranges and angles are floats carried unchanged;
 * view-projection matrices are kept opaque.
 */
module Lights {
  datatype LightFlag = Ambient | Directional | Point | Spot | Visible | CastShadow

  /** The flag's discriminant, which is also its bit position. */
  function Position(f: LightFlag): (k: nat)
    ensures k < 6
    ensures k <= 3 <==> IsType(f)
  {
    match f
    case Ambient => 0
    case Directional => 1
    case Point => 2
    case Spot => 3
    case Visible => 4
    case CastShadow => 5
  }

  /** The four flags that name the kind of light. */
  predicate IsType(f: LightFlag) {
    f.Ambient? || f.Directional? || f.Point? || f.Spot?
  }

  /** The single bit a flag stands for, `1 << discriminant`. */
  function Bit(f: LightFlag): (b: bv32)
    ensures b == (1 as bv32) << Position(f)
  {
    match f
    case Ambient => 1
    case Directional => 2
    case Point => 4
    case Spot => 8
    case Visible => 16
    case CastShadow => 32
  }

  /** Whether the flag's bit is set in a flag word. */
  predicate Has(flags: bv32, f: LightFlag) {
    flags & Bit(f) != 0
  }

  /** Distinct flags have distinct bits: a flag's bit carries that flag only. */
  lemma BitHas(f: LightFlag, g: LightFlag)
    ensures Has(Bit(f), g) <==> f == g
  {
  }

  /** `BitOr for LightFlags`: the word holding exactly the two flags' bits. */
  function FlagOr(a: LightFlag, b: LightFlag): (r: bv32)
    ensures forall g :: Has(r, g) <==> g == a || g == b
  {
    var w := Bit(a) | Bit(b);
    forall g ensures Has(w, g) <==> g == a || g == b {
      BitHas(a, g);
      BitHas(b, g);
    }
    w
  }

  /** The flag word of a record holds exactly one type bit, `t`. */
  predicate OneType(flags: bv32, t: LightFlag) {
    forall g :: IsType(g) ==> (Has(flags, g) <==> g == t)
  }

  /**
   * The flag word `as_light` builds, as written: Visible and the type bit, then, for a
   * shadow-casting light, an OR with the discriminant of CastShadow (the number 5) rather
   * than with its bit.
   */
  function FlagsAsWritten(t: LightFlag, shadow: bool): (r: bv32)
    ensures !shadow ==> r == FlagOr(Visible, t)
  {
    FlagOr(Visible, t) | (if shadow then Position(CastShadow) as bv32 else 0)
  }

  /**
   * As written, a shadow-casting light also carries the Ambient and Point type bits and
   * not the CastShadow bit; a shadow-casting directional light gets 23 instead of 50.
   */
  lemma ShadowFlagsAsWrittenWrong(t: LightFlag)
    requires t.Directional? || t.Point? || t.Spot?
    ensures Has(FlagsAsWritten(t, true), Ambient) && Has(FlagsAsWritten(t, true), Point)
    ensures !Has(FlagsAsWritten(t, true), CastShadow)
    ensures !t.Point? ==> !OneType(FlagsAsWritten(t, true), t)
    ensures FlagsAsWritten(Directional, true) == 23 && Flags(Directional, true) == 50
  {
    var w := FlagsAsWritten(t, true);
    assert IsType(Point) && Has(w, Point);
  }

  /** The flag word `as_light` evidently means: Visible, the type bit, and CastShadow iff `shadow`. */
  function Flags(t: LightFlag, shadow: bool): (r: bv32)
    requires IsType(t)
    ensures forall g :: Has(r, g) <==> g == Visible || g == t || (shadow && g == CastShadow)
    ensures OneType(r, t) && Has(r, Visible)
  {
    var base := FlagOr(Visible, t);
    var extra: bv32 := if shadow then Bit(CastShadow) else 0;
    forall g ensures Has(base | extra, g) <==> Has(base, g) || Has(extra, g) {
    }
    forall g ensures Has(extra, g) <==> shadow && g == CastShadow {
      BitHas(CastShadow, g);
    }
    base | extra
  }

  /** A colour (`palette::Color`). */
  datatype Rgba = Rgba(r: real, g: real, b: real, a: real)

  const WHITE: Rgba := Rgba(1.0, 1.0, 1.0, 1.0)

  /** `as_rgba_slice`. */
  function Slice(c: Rgba): (s: seq<real>)
    ensures |s| == 4 && s[0] == c.r && s[1] == c.g && s[2] == c.b && s[3] == c.a
  {
    [c.r, c.g, c.b, c.a]
  }

  /**
   * A view-projection matrix, kept opaque: the identity, or the matrix computed for the
   * `source`-th light of kind `kind` and cube face `face` (0 for lights without faces).
   */
  datatype Matrix = Identity | Computed(kind: LightFlag, source: nat, face: nat)

  /**
   * The GPU light record. `shadowMapIndex` is the shadow map layer the lighting manager
   * assigns through `set_shadow_map_index`; it starts at 0. `Light` in src/math/light.rs has
   * no such field, so this one is taken from the manager's use of it.
   */
  datatype Light = Light(
    color: seq<real>,
    intensity: real,
    flags: bv32,
    range: real,
    innerAngle: real,
    outerAngle: real,
    viewProj: Matrix,
    shadowMapIndex: nat)

  /** `Light::default`: a visible white ambient light with flags 17. */
  function DefaultLight(): (r: Light)
    ensures r.flags == 17 && OneType(r.flags, Ambient) && Has(r.flags, Visible)
    ensures !Has(r.flags, CastShadow)
    ensures r.color == [1.0, 1.0, 1.0, 1.0] && r.intensity == 1.0
    ensures r.range == 0.0 && r.innerAngle == 0.0 && r.outerAngle == 0.0 && r.viewProj == Identity
  {
    Light(Slice(WHITE), 1.0, FlagOr(Visible, Ambient), 0.0, 0.0, 0.0, Identity, 0)
  }

  datatype AmbientLight = AmbientLight(color: Rgba, intensity: real)
  datatype DirectionalLight = DirectionalLight(color: Rgba, intensity: real, shadow: bool)
  datatype PointLight = PointLight(color: Rgba, intensity: real, shadow: bool, range: real)
  datatype SpotLight = SpotLight(color: Rgba, intensity: real, shadow: bool, range: real,
                                 innerAngle: real, outerAngle: real)

  const DEFAULT_AMBIENT: AmbientLight := AmbientLight(WHITE, 1.0)
  const DEFAULT_DIRECTIONAL: DirectionalLight := DirectionalLight(WHITE, 1.0, true)
  const DEFAULT_POINT: PointLight := PointLight(WHITE, 1.0, true, 10.0)
  const DEFAULT_SPOT: SpotLight := SpotLight(WHITE, 1.0, true, 50.0, 15.0, 45.0)

  /** `AmbientLight::as_light`: an ambient record that never casts a shadow. */
  function AmbientAsLight(light: AmbientLight, m: Matrix): (r: Light)
    ensures r.color == Slice(light.color) && r.intensity == light.intensity && r.viewProj == m
    ensures forall g :: Has(r.flags, g) <==> g == Visible || g == Ambient
    ensures OneType(r.flags, Ambient)
    ensures r.range == 0.0 && r.innerAngle == 0.0 && r.outerAngle == 0.0
  {
    DefaultLight().(color := Slice(light.color), intensity := light.intensity,
                    flags := FlagOr(Visible, Ambient), viewProj := m)
  }

  /** `DirectionalLight::as_light`: a directional record, casting a shadow iff the light does. */
  function DirectionalAsLight(light: DirectionalLight, m: Matrix): (r: Light)
    ensures r.color == Slice(light.color) && r.intensity == light.intensity && r.viewProj == m
    ensures forall g :: Has(r.flags, g) <==> g == Visible || g == Directional || (light.shadow && g == CastShadow)
    ensures OneType(r.flags, Directional)
    ensures r.range == 0.0 && r.innerAngle == 0.0 && r.outerAngle == 0.0
  {
    DefaultLight().(color := Slice(light.color), intensity := light.intensity,
                    flags := Flags(Directional, light.shadow), viewProj := m)
  }

  /** `PointLight::as_light`: a point record with the light's range. */
  function PointAsLight(light: PointLight, m: Matrix): (r: Light)
    ensures r.color == Slice(light.color) && r.intensity == light.intensity && r.viewProj == m
    ensures forall g :: Has(r.flags, g) <==> g == Visible || g == Point || (light.shadow && g == CastShadow)
    ensures OneType(r.flags, Point)
    ensures r.range == light.range && r.innerAngle == 0.0 && r.outerAngle == 0.0
  {
    DefaultLight().(color := Slice(light.color), intensity := light.intensity,
                    flags := Flags(Point, light.shadow), range := light.range, viewProj := m)
  }

  /** `SpotLight::as_light`: a spot record with the light's range and cone angles. */
  function SpotAsLight(light: SpotLight, m: Matrix): (r: Light)
    ensures r.color == Slice(light.color) && r.intensity == light.intensity && r.viewProj == m
    ensures forall g :: Has(r.flags, g) <==> g == Visible || g == Spot || (light.shadow && g == CastShadow)
    ensures OneType(r.flags, Spot)
    ensures r.range == light.range && r.innerAngle == light.innerAngle && r.outerAngle == light.outerAngle
  {
    DefaultLight().(color := Slice(light.color), intensity := light.intensity,
                    flags := Flags(Spot, light.shadow), range := light.range,
                    innerAngle := light.innerAngle, outerAngle := light.outerAngle, viewProj := m)
  }

  /**
   * `is_directional`, `is_point`, `is_spot`, which the lighting manager calls on a record.
   * They are taken to test the record's type bit; `Light` in src/math/light.rs does not
   * define them.
   */
  predicate IsDirectional(l: Light) { Has(l.flags, Directional) }
  predicate IsPoint(l: Light) { Has(l.flags, Point) }
  predicate IsSpot(l: Light) { Has(l.flags, Spot) }

  /** On a record carrying exactly one type bit, the three kind tests single out that type. */
  lemma KindTests(l: Light, t: LightFlag)
    requires IsType(t) && OneType(l.flags, t)
    ensures IsDirectional(l) <==> t == Directional
    ensures IsPoint(l) <==> t == Point
    ensures IsSpot(l) <==> t == Spot
  {
    assert IsType(Directional) && IsType(Point) && IsType(Spot);
  }
}
