/** The Particle record, its side-count range and its vertex count. */
module ParticleRecord {
  import opened Vectors

  /** Smallest and largest polygon side counts with a geometry template. */
  const MinSides: int := 8
  const MaxSides: int := 16

  /** Vertices written for the largest polygon: one triangle per side. */
  const MaxVertices: int := ((MaxSides - 1) * 3) + 3

  /** One polygon particle, a value stored by value in a pool slot. */
  datatype Particle = Particle(
    position: Vec2,
    scale: Vec2,
    direction: Vec2,
    destination: Vec2,
    speed: Vec2,
    sides: int,
    rotation: real,
    lifeSpan: real,
    stroke: Color,
    fill: Color,
    isActive: bool)

  /** The floating-point operations of the source that have no exact
      counterpart on reals. They are supplied from outside and left
      uninterpreted: nothing in the model depends on their values. */
  datatype FloatOps = FloatOps(
    /** (cos(i * 2pi / sides), sin(i * 2pi / sides)) for arguments (sides, i). */
    polar: (int, int) -> Vec2,
    /** Vector2.Transform of a template vertex by the particle's
        scale, rotation and translation matrix. */
    transform: (Particle, Vec2) -> Vec2,
    /** Vector2.Length. */
    length: Vec2 -> real,
    /** Vector2.Normalize. */
    normalize: Vec2 -> Vec2,
    /** 1 / x in float arithmetic (total: 1 / 0 is infinity there). */
    reciprocal: real -> real,
    /** (cos(n * pi), sin(n * pi)): the direction drawn for a whole number n. */
    heading: int -> Vec2,
    /** Math.Atan2(v.Y, v.X). */
    angleOf: Vec2 -> real)

  /** A side count that has a template row. */
  predicate SidesInRange(sides: int) {
    MinSides <= sides <= MaxSides
  }

  /** Every particle of a sequence has a template row. */
  predicate AllSidesInRange(ps: seq<Particle>) {
    forall k :: 0 <= k < |ps| ==> SidesInRange(ps[k].sides)
  }

  /** Number of vertices an S-sided particle writes: S - 1 fan triangles
      plus the closing triangle, three vertices each. */
  function Vertices(sides: int): (n: int)
    ensures n == 3 * sides
    ensures SidesInRange(sides) ==> 3 * MinSides <= n <= MaxVertices
  {
    ((sides - 1) * 3) + 3
  }
}
