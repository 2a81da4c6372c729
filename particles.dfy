/** The particle pool: a fixed array of particle slots whose first count
    entries are live, the shared vertex buffer they are drawn into, and the
    settings emission reads. Its methods work in place and are proved to
    agree with the value-level steps of Lifecycle and Tessellation. */
module ParticleSystem {
  import opened Vectors
  import opened ParticleRecord
  import opened Templates
  import opened Tessellation
  import opened Lifecycle

  /** Number of particle slots. */
  const Capacity: int := 100

  /** The random numbers ResetColor consumes: the four fill channels, then
      three channels of the fill variance. */
  datatype ColourDraw = ColourDraw(r: int, g: int, b: int, a: int, vr: int, vg: int, vb: int)

  /** Every number of d is one the corresponding Next call can return. */
  predicate ColourDrawOk(d: ColourDraw) {
    Drawn(d.r, 150, 256) && Drawn(d.g, 1, 150) && Drawn(d.b, 1, 150) &&
    Drawn(d.a, 100, 200) &&
    Drawn(d.vr, 1, 51) && Drawn(d.vg, 1, 51) && Drawn(d.vb, 1, 51)
  }

  /** The all-zero struct value of a fresh array slot. */
  const Blank: Particle :=
    Particle(Zero, Zero, Zero, Zero, Zero, 0, 0.0, 0.0, Color(0, 0, 0, 0), Color(0, 0, 0, 0), false)

  const BlankVertex: PositionColor := PositionColor(Zero, Color(0, 0, 0, 0))

  class Particles {
    var position: Vec2
    var count: int
    const particles: array<Particle>
    const vertexData: array<PositionColor>
    /** The geometry table Particle's static constructor builds. */
    const templates: array<array<Vec2>>
    const ops: FloatOps

    var center: Vec2
    var initialDestination: Vec2
    var particlesDirection: Vec2
    var fill: Color
    var fillVariance: Color

    /** Fields that are declared but never assigned after construction:
        they keep their initial values for the life of the pool. */
    const angle: Vec2 := Zero
    const scale: Vec2 := Zero
    const direction: Vec2 := Zero
    const speed: Vec2 := Zero
    const dspeed: real := 0.0
    const dscale: real := 0.0
    const rotation: real := 1.0
    const stroke: Color := Color(0, 0, 0, 0)

    /** The pool's invariant: fixed sizes, a live prefix of particles that
        pass the removal test and have template rows, and the built table. */
    ghost predicate Valid()
      reads this, particles, templates, templates[..]
    {
      particles.Length == Capacity &&
      vertexData.Length == particles.Length * MaxVertices &&
      0 <= count <= particles.Length &&
      Pooled(particles[..count]) &&
      TemplatesOk(templates, ops)
    }

    /** The fields emission and the behaviour step read. */
    function Config(): Lifecycle.Settings
      reads this
    {
      Lifecycle.Settings(center, angle, particlesDirection, scale, direction, speed,
               dscale, dspeed, rotation, stroke, fill)
    }

    /** The constructor: 100 slots, a buffer of MaxVertices vertices per
        slot, no live particle, and a first colour draw. */
    constructor (position: Vec2, templates: array<array<Vec2>>, ops: FloatOps, colour: ColourDraw)
      requires TemplatesOk(templates, ops)
      requires ColourDrawOk(colour)
      ensures Valid()
      ensures fresh(particles) && fresh(vertexData)
      ensures this.position == position && this.templates == templates && this.ops == ops
      ensures particles.Length == Capacity && vertexData.Length == Capacity * MaxVertices
      ensures count == 0
      ensures center == Vec2(400.0, 300.0)
      ensures fill == Color(colour.r, colour.g, colour.b, colour.a)
      ensures fillVariance == Color(colour.vr, colour.vg, colour.vb, 0)
      ensures particlesDirection == Vec2(0.0, -1.0)
      ensures initialDestination == Add(center, particlesDirection)
    {
      this.position := position;
      this.templates := templates;
      this.ops := ops;
      var slots := new Particle[Capacity](_ => Blank);
      particles := slots;
      vertexData := new PositionColor[slots.Length * MaxVertices](_ => BlankVertex);
      count := 0;
      center := Vec2(400.0, 300.0);
      initialDestination := Zero;
      particlesDirection := Zero;
      fill := Color(0, 0, 0, 0);
      fillVariance := Color(0, 0, 0, 0);
      new;
      ResetColor(colour);
    }

    /** ResetColor: draws a new fill colour and fill variance (the
        variance's alpha is left as it was) and points the particles up. */
    method ResetColor(d: ColourDraw)
      requires Valid()
      requires ColourDrawOk(d)
      modifies this`fill, this`fillVariance, this`particlesDirection, this`initialDestination
      ensures Valid()
      ensures fill == Color(d.r, d.g, d.b, d.a)
      ensures fillVariance == old(fillVariance).(r := d.vr, g := d.vg, b := d.vb)
      ensures particlesDirection == Vec2(0.0, -1.0)
      ensures initialDestination == Add(center, particlesDirection)
    {
      fill := fill.(r := d.r);
      fill := fill.(g := d.g);
      fill := fill.(b := d.b);
      fill := fill.(a := d.a);
      fillVariance := fillVariance.(r := d.vr);
      fillVariance := fillVariance.(g := d.vg);
      fillVariance := fillVariance.(b := d.vb);
      particlesDirection := Vec2(0.0, -1.0);
      initialDestination := Add(center, particlesDirection);
    }

    /** EmitParticles: one lifespan draw for the whole burst, then every
        slot refilled in order, leaving count at the capacity. */
    method EmitParticles(lifeDraw: int, draws: seq<EmitDraw>)
      requires Valid()
      requires Drawn(lifeDraw, MinTime, MaxTime)
      requires |draws| == particles.Length
      requires forall k :: 0 <= k < |draws| ==> DrawOk(Config(), draws[k])
      modifies this`count, particles
      ensures Valid()
      ensures count == particles.Length
      ensures particles[..] == Burst(Config(), ops, draws, lifeDraw as real)
    {
      var lifeSpan := lifeDraw as real;
      count := 0;
      while count < particles.Length
        invariant 0 <= count <= particles.Length
        invariant forall k :: 0 <= k < count ==> particles[k] == Emit(Config(), ops, draws[k], lifeSpan)
      {
        particles[count] := Emit(Config(), ops, draws[count], lifeSpan);
        count := count + 1;
      }
      assert particles[..] == Burst(Config(), ops, draws, lifeSpan);
      BurstPooled(Config(), ops, draws, lifeSpan);
      assert particles[..count] == particles[..];
    }

    /** Update: refill when no particle is live, then age every live
        particle once and swap-remove the dead ones, then move the
        survivors. The new slots and count are those of Step. */
    method Update(dt: real, lifeDraw: int, draws: seq<EmitDraw>)
      requires Valid()
      requires count == 0 ==>
        Drawn(lifeDraw, MinTime, MaxTime) && |draws| == particles.Length &&
        forall k :: 0 <= k < |draws| ==> DrawOk(Config(), draws[k])
      modifies this`count, particles
      ensures Valid()
      ensures (particles[..], count) ==
        Step(old(particles[..]), old(count), dt, Config(), ops, lifeDraw as real, draws)
    {
      if count == 0 {
        EmitParticles(lifeDraw, draws);
      }
      Compact(dt);
      Advance(dt);
    }

    /** The first loop of Update: ages slot i, then either keeps it and
        moves on, or overwrites it with the last live slot, shrinks the
        count and steps i back so the moved particle is looked at next. */
    method Compact(dt: real)
      requires Valid()
      modifies this`count, particles
      ensures Valid()
      ensures (particles[..], count) == Sweep(old(particles[..]), 0, old(count), dt)
    {
      ghost var start, live := particles[..], count;
      SweepPooled(start, live, dt);
      ghost var swept := Sweep(start, 0, live, dt);
      var i := 0;
      while i < count
        invariant 0 <= i <= count <= particles.Length
        invariant Sweep(particles[..], i, count, dt) == swept
        decreases count - i
      {
        ghost var a, c := particles[..], count;
        Age(i, dt);
        if !particles[i].isActive || particles[i].scale.x <= 0.0 || particles[i].scale.y <= 0.0 {
          ghost var b := particles[..];
          count := count - 1;
          particles[i] := particles[count];
          assert particles[..] == b[i := b[c - 1]];
          SweepDropStep(a, i, c, dt);
          i := i - 1;
        } else {
          SweepKeepStep(a, i, c, dt);
        }
        i := i + 1;
      }
    }

    /** The ageing statements of the first loop of Update, on slot i. */
    method Age(i: int, dt: real)
      requires 0 <= i < particles.Length
      modifies particles
      ensures particles[..] == old(particles[..])[i := Decrement(old(particles[i]), dt)]
    {
      particles[i] := particles[i].(lifeSpan := particles[i].lifeSpan - dt);
      particles[i] := particles[i].(isActive := particles[i].lifeSpan > 0.0);
    }

    /** The second loop of Update: the behaviour step on every live slot. */
    method Advance(dt: real)
      requires Valid()
      modifies particles
      ensures Valid()
      ensures particles[..] == Integrate(old(particles[..]), count, dt, Config(), ops)
    {
      ghost var aged := particles[..];
      var settings := Config();
      IntegrateStep(aged, 0, dt, settings, ops);
      for j := 0 to count
        invariant particles[..] == Integrate(aged, j, dt, settings, ops)
      {
        IntegrateStep(aged, j, dt, settings, ops);
        particles[j] := Explode(particles[j], dt, settings, ops);
      }
      IntegrateKeeps(aged, count, dt, settings, ops);
    }

    /** Draw: when some particle is live, writes the fans of the live
        prefix back to back from the start of the buffer and reports one
        primitive per three vertices; the rest of the buffer is untouched. */
    method Draw() returns (drawn: bool, primitives: int)
      requires Valid()
      modifies vertexData
      ensures Valid()
      ensures drawn <==> count > 0
      ensures 0 <= 3 * primitives <= vertexData.Length
      ensures 3 * primitives == SumVertices(particles[..count])
      ensures vertexData[..3 * primitives] == Frame(particles[..count], ops)
      ensures forall j :: 3 * primitives <= j < vertexData.Length ==> vertexData[j] == old(vertexData[j])
    {
      drawn := count > 0;
      primitives := 0;
      if count > 0 {
        var verticesCount := WriteFrame();
        SumVerticesBound(particles[..count]);
        primitives := verticesCount / 3;
      } else {
        assert particles[..count] == [];
      }
    }

    /** The vertex loop of Draw: each live particle's fan at the running
        cursor, which ends at the total vertex count. */
    method WriteFrame() returns (verticesCount: int)
      requires Valid()
      modifies vertexData
      ensures verticesCount == SumVertices(particles[..count])
      ensures 0 <= verticesCount <= vertexData.Length
      ensures vertexData[..verticesCount] == Frame(particles[..count], ops)
      ensures forall j :: verticesCount <= j < vertexData.Length ==> vertexData[j] == old(vertexData[j])
    {
      ghost var ps := particles[..count];
      PooledSides(ps, count);
      assert ps[..count] == ps;
      SumVerticesBound(ps);
      assert count * MaxVertices <= vertexData.Length;
      verticesCount := 0;
      for i := 0 to count
        invariant verticesCount == SumVertices(ps[..i])
        invariant 0 <= verticesCount <= SumVertices(ps)
        invariant vertexData[..verticesCount] == Frame(ps[..i], ops)
        invariant forall j :: verticesCount <= j < vertexData.Length ==> vertexData[j] == old(vertexData[j])
      {
        FrameStep(ps, ops, i);
        assert ps[i] == particles[i];
        verticesCount := CopyTo(particles[i], templates, ops, vertexData, verticesCount);
      }
    }
  }
}
