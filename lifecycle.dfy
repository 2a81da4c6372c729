/** The life of a particle between frames: how a burst is emitted, how the
    update pass ages and culls the pool, and how the explosion behaviour
    moves a live particle. Everything here is a value computation; the pool
    class runs these steps in place and is proved to agree with them. */
module Lifecycle {
  import opened Vectors
  import opened ParticleRecord

  /** Bounds of the lifespan drawn once per burst. */
  const MinTime: int := 1500
  const MaxTime: int := 2500

  /** The fields of the pool that emission and the behaviour step read. */
  datatype Settings = Settings(
    center: Vec2,
    /** Range of the heading draw; the zero vector means any heading. */
    angle: Vec2,
    particlesDirection: Vec2,
    /** Per-step increments of a particle's scale, direction and speed. */
    scale: Vec2,
    direction: Vec2,
    speed: Vec2,
    /** Widths of the scale and speed variance draws. */
    dscale: real,
    dspeed: real,
    /** Spin per unit of time. */
    rotation: real,
    stroke: Color,
    fill: Color)

  /** Random.Next(lo, hi) can return v: lo <= v < hi, or exactly lo when
      the bounds meet; a reversed range throws, so no value qualifies. */
  predicate Drawn(v: int, lo: int, hi: int) {
    if lo < hi then lo <= v < hi else lo == hi && v == lo
  }

  /** The bounds of a variance draw of width w:
      Next(-(int)(w * 100), (int)((w + 1) * 100)). */
  function VarianceLow(w: real): int { -Truncate(w * 100.0) }

  function VarianceHigh(w: real): int { Truncate((w + 1.0) * 100.0) }

  /** The bounds of the heading draw: [0, 360) when no angle range is set,
      otherwise [(int)angle.X, (int)angle.Y + 1). Either way the heading is
      (cos(n * pi), sin(n * pi)) for the drawn n. */
  function TurnLow(s: Settings): int {
    if s.angle == Zero then 0 else Truncate(s.angle.x)
  }

  function TurnHigh(s: Settings): int {
    if s.angle == Zero then 360 else Truncate(s.angle.y) + 1
  }

  /** The random numbers one emitted particle consumes, in the order they
      are drawn: the destination offset, then the heading, the two
      variances, the side count and the size. */
  datatype EmitDraw = EmitDraw(
    spreadX: int,
    spreadY: int,
    turn: int,
    scaleSteps: int,
    speedSteps: int,
    sides: int,
    size: int)

  /** Every number of d is one the corresponding Next call can return. */
  predicate DrawOk(s: Settings, d: EmitDraw) {
    Drawn(d.spreadX, -100, 100) &&
    Drawn(d.spreadY, 100, 100) &&
    Drawn(d.turn, TurnLow(s), TurnHigh(s)) &&
    Drawn(d.scaleSteps, VarianceLow(s.dscale), VarianceHigh(s.dscale)) &&
    Drawn(d.speedSteps, VarianceLow(s.dspeed), VarianceHigh(s.dspeed)) &&
    Drawn(d.sides, MinSides, MaxSides) &&
    Drawn(d.size, 20, 30)
  }

  /** ExplosionEmit towards Center + (spreadX, spreadY). */
  function Emit(s: Settings, ops: FloatOps, d: EmitDraw, lifeSpan: real): Particle {
    var destination := Add(s.center, Vec2(d.spreadX as real, d.spreadY as real));
    var direction := ops.heading(d.turn);
    var scaleVariance := d.scaleSteps as real * 0.01;
    var speedVariance := d.speedSteps as real * 0.01;
    Particle(
      position := s.center,
      scale := Add(Splat(d.size as real), Splat(scaleVariance)),
      direction := direction,
      destination := destination,
      speed := Add(Scaled(Sub(destination, s.center), 1.0 / 100.0), Splat(speedVariance)),
      sides := d.sides,
      rotation := ops.angleOf(direction),
      lifeSpan := lifeSpan,
      stroke := s.stroke,
      fill := s.fill,
      isActive := true)
  }

  /** What every particle of a burst starts as. */
  predicate Newborn(s: Settings, p: Particle, lifeSpan: real) {
    p.isActive && p.lifeSpan == lifeSpan &&
    MinSides <= p.sides < MaxSides &&
    p.position == s.center && p.stroke == s.stroke && p.fill == s.fill &&
    p.scale.x == p.scale.y && 0.0 < p.scale.x
  }

  /** A particle emitted from legal draws is active, has the burst's
      lifespan, a side count with a template row other than the largest, a
      positive square scale, and a speed of one hundredth of the offset to
      its destination plus the speed variance. */
  lemma EmitNewborn(s: Settings, ops: FloatOps, d: EmitDraw, lifeSpan: real)
    requires DrawOk(s, d)
    requires s.dscale < 20.0
    ensures Newborn(s, Emit(s, ops, d, lifeSpan), lifeSpan)
    ensures Emit(s, ops, d, lifeSpan).destination.y == s.center.y + 100.0
    ensures Emit(s, ops, d, lifeSpan).speed ==
      Vec2(d.spreadX as real / 100.0 + d.speedSteps as real * 0.01,
           1.0 + d.speedSteps as real * 0.01)
  {
    var low := VarianceLow(s.dscale);
    assert low as real * 0.01 > -20.0 by {
      if 0.0 <= s.dscale {
        assert Truncate(s.dscale * 100.0) as real <= s.dscale * 100.0;
      } else {
        assert Truncate(s.dscale * 100.0) <= 0;
      }
    }
    assert d.scaleSteps >= low;
  }

  /** EmitParticles: one particle per draw, all with the one lifespan. */
  function Burst(s: Settings, ops: FloatOps, draws: seq<EmitDraw>, lifeSpan: real): (b: seq<Particle>)
    ensures |b| == |draws|
  {
    seq(|draws|, k requires 0 <= k < |draws| => Emit(s, ops, draws[k], lifeSpan))
  }

  /** A burst from legal draws is newborn throughout and shares its
      lifespan. */
  lemma BurstNewborn(s: Settings, ops: FloatOps, draws: seq<EmitDraw>, lifeSpan: real)
    requires forall k :: 0 <= k < |draws| ==> DrawOk(s, draws[k])
    requires s.dscale < 20.0
    ensures forall k :: 0 <= k < |draws| ==> Newborn(s, Burst(s, ops, draws, lifeSpan)[k], lifeSpan)
  {
    forall k | 0 <= k < |draws|
      ensures Newborn(s, Burst(s, ops, draws, lifeSpan)[k], lifeSpan)
    {
      EmitNewborn(s, ops, draws[k], lifeSpan);
    }
  }

  /** The ageing step of the update pass: LifeSpan -= dt, then
      IsActive = LifeSpan > 0. */
  function Decrement(p: Particle, dt: real): (q: Particle)
    ensures q.lifeSpan == p.lifeSpan - dt
    ensures q.isActive <==> q.lifeSpan > 0.0
  {
    p.(lifeSpan := p.lifeSpan - dt, isActive := p.lifeSpan - dt > 0.0)
  }

  /** The update pass keeps an aged particle unless it is inactive or has
      a non-positive scale component. */
  predicate Survives(q: Particle) {
    q.isActive && q.scale.x > 0.0 && q.scale.y > 0.0
  }

  /** The aged survivors of ps, in order: the reference the compaction is
      measured against. */
  function Survivors(ps: seq<Particle>, dt: real): seq<Particle>
    decreases |ps|
  {
    if ps == [] then []
    else
      var q := Decrement(ps[0], dt);
      (if Survives(q) then [q] else []) + Survivors(ps[1..], dt)
  }

  lemma {:induction false} SurvivorsConcat(s: seq<Particle>, t: seq<Particle>, dt: real)
    ensures Survivors(s + t, dt) == Survivors(s, dt) + Survivors(t, dt)
    decreases |s|
  {
    if s == [] {
      assert s + t == t;
    } else {
      var q := Decrement(s[0], dt);
      var kept := if Survives(q) then [q] else [];
      assert (s + t)[0] == s[0];
      assert (s + t)[1..] == s[1..] + t;
      SurvivorsConcat(s[1..], t, dt);
      assert Survivors(s + t, dt) == kept + Survivors(s[1..] + t, dt);
      assert Survivors(s, dt) == kept + Survivors(s[1..], dt);
    }
  }

  /** Moving one particle from the front to the back does not change the
      survivors, up to order. */
  lemma SurvivorsRotate(x: Particle, ps: seq<Particle>, dt: real)
    ensures multiset(Survivors([x] + ps, dt)) == multiset(Survivors(ps + [x], dt))
  {
    SurvivorsConcat([x], ps, dt);
    SurvivorsConcat(ps, [x], dt);
  }

  /** q is an aged survivor of ps exactly when it survives and is some
      particle of ps aged once. */
  lemma {:induction false} SurvivorsMembers(ps: seq<Particle>, dt: real, q: Particle)
    ensures q in Survivors(ps, dt) <==>
      Survives(q) && exists j :: 0 <= j < |ps| && q == Decrement(ps[j], dt)
    decreases |ps|
  {
    if ps != [] {
      SurvivorsMembers(ps[1..], dt, q);
      if exists j :: 0 <= j < |ps| && q == Decrement(ps[j], dt) {
        var j :| 0 <= j < |ps| && q == Decrement(ps[j], dt);
        if j > 0 {
          assert q == Decrement(ps[1..][j - 1], dt);
        }
      }
      if exists j :: 0 <= j < |ps| - 1 && q == Decrement(ps[1..][j], dt) {
        var j :| 0 <= j < |ps| - 1 && q == Decrement(ps[1..][j], dt);
        assert q == Decrement(ps[j + 1], dt);
      }
    }
  }

  /** When every particle has the same lifespan and a positive scale, they
      all survive the pass or none does. */
  lemma {:induction false} SurvivorsUniform(ps: seq<Particle>, lifeSpan: real, dt: real)
    requires forall k :: 0 <= k < |ps| ==>
      ps[k].lifeSpan == lifeSpan && ps[k].scale.x > 0.0 && ps[k].scale.y > 0.0
    ensures |Survivors(ps, dt)| == if lifeSpan - dt > 0.0 then |ps| else 0
    decreases |ps|
  {
    if ps != [] {
      SurvivorsUniform(ps[1..], lifeSpan, dt);
    }
  }

  /** The compaction loop of Update from index i with count c: age slot
      i; keep it and move on, or overwrite it with the last live slot,
      shrink the count and look at slot i again. The result is the array
      and the count when the loop exits. */
  function Sweep(a: seq<Particle>, i: int, c: int, dt: real): (r: (seq<Particle>, int))
    requires 0 <= i <= c <= |a|
    ensures |r.0| == |a|
    ensures i <= r.1 <= c
    decreases c - i
  {
    if i == c then (a, c)
    else
      var b := a[i := Decrement(a[i], dt)];
      if Survives(b[i]) then Sweep(b, i + 1, c, dt)
      else Sweep(b[i := b[c - 1]], i, c - 1, dt)
  }

  /** The compaction never touches the slots before i or from c on. */
  lemma {:induction false} SweepFrame(a: seq<Particle>, i: int, c: int, dt: real)
    requires 0 <= i <= c <= |a|
    ensures Sweep(a, i, c, dt).0[..i] == a[..i]
    ensures Sweep(a, i, c, dt).0[c..] == a[c..]
    decreases c - i
  {
    if i < c {
      var b := a[i := Decrement(a[i], dt)];
      if Survives(b[i]) {
        SweepFrame(b, i + 1, c, dt);
        var r := Sweep(b, i + 1, c, dt);
        assert Sweep(a, i, c, dt) == r;
        assert r.0[..i] == r.0[..i + 1][..i];
        assert b[..i + 1][..i] == a[..i];
        assert b[c..] == a[c..];
      } else {
        var e := b[i := b[c - 1]];
        SweepFrame(e, i, c - 1, dt);
        var r := Sweep(e, i, c - 1, dt);
        assert Sweep(a, i, c, dt) == r;
        assert e[..i] == a[..i];
        assert r.0[c..] == r.0[c - 1..][1..];
        assert e[c - 1..][1..] == a[c..];
      }
    }
  }

  /** Every slot the compaction leaves in [i, count) survives. */
  lemma {:induction false} SweepLive(a: seq<Particle>, i: int, c: int, dt: real)
    requires 0 <= i <= c <= |a|
    ensures forall k :: i <= k < Sweep(a, i, c, dt).1 ==> Survives(Sweep(a, i, c, dt).0[k])
    decreases c - i
  {
    if i < c {
      var b := a[i := Decrement(a[i], dt)];
      if Survives(b[i]) {
        SweepLive(b, i + 1, c, dt);
        SweepFrame(b, i + 1, c, dt);
        var r := Sweep(b, i + 1, c, dt);
        assert r.0[i] == r.0[..i + 1][i];
      } else {
        SweepLive(b[i := b[c - 1]], i, c - 1, dt);
      }
    }
  }

  /** The slots the compaction leaves in [i, count) are exactly the aged
      survivors of a[i..c], each once, in some order. */
  lemma {:induction false} SweepPermutes(a: seq<Particle>, i: int, c: int, dt: real)
    requires 0 <= i <= c <= |a|
    ensures multiset(Sweep(a, i, c, dt).0[i..Sweep(a, i, c, dt).1]) ==
      multiset(Survivors(a[i..c], dt))
    decreases c - i, 2
  {
    if i < c {
      if Survives(Decrement(a[i], dt)) {
        KeptSlot(a, i, c, dt);
      } else {
        DroppedSlot(a, i, c, dt);
      }
    }
  }

  /** SweepPermutes when slot i survives and stays in place. */
  lemma {:induction false} KeptSlot(a: seq<Particle>, i: int, c: int, dt: real)
    requires 0 <= i < c <= |a|
    requires Survives(Decrement(a[i], dt))
    ensures multiset(Sweep(a, i, c, dt).0[i..Sweep(a, i, c, dt).1]) ==
      multiset(Survivors(a[i..c], dt))
    decreases c - i, 0
  {
    var q := Decrement(a[i], dt);
    var b := a[i := q];
    SweepPermutes(b, i + 1, c, dt);
    SweepFrame(b, i + 1, c, dt);
    SweepKeepStep(a, i, c, dt);
    var r := Sweep(b, i + 1, c, dt);
    assert r.0[i] == r.0[..i + 1][i] == q;
    assert r.0[i..r.1] == [q] + r.0[i + 1..r.1];
    KeptSurvivors(a, i, c, dt);
  }

  /** One unfolding of Sweep when slot i survives. */
  lemma SweepKeepStep(a: seq<Particle>, i: int, c: int, dt: real)
    requires 0 <= i < c <= |a|
    requires Survives(Decrement(a[i], dt))
    ensures Sweep(a, i, c, dt) == Sweep(a[i := Decrement(a[i], dt)], i + 1, c, dt)
  {
    var b := a[i := Decrement(a[i], dt)];
    assert b[i] == Decrement(a[i], dt);
  }

  /** A surviving slot i heads the survivors of the range. */
  lemma KeptSurvivors(a: seq<Particle>, i: int, c: int, dt: real)
    requires 0 <= i < c <= |a|
    requires Survives(Decrement(a[i], dt))
    ensures Survivors(a[i..c], dt) ==
      [Decrement(a[i], dt)] + Survivors(a[i := Decrement(a[i], dt)][i + 1..c], dt)
  {
    var b := a[i := Decrement(a[i], dt)];
    assert a[i..c] == [a[i]] + a[i + 1..c];
    assert b[i + 1..c] == a[i + 1..c];
    SurvivorsConcat([a[i]], a[i + 1..c], dt);
    assert Survivors([a[i]], dt) == [Decrement(a[i], dt)];
  }

  /** SweepPermutes when slot i dies and the last live slot is moved into
      it. */
  lemma {:induction false} DroppedSlot(a: seq<Particle>, i: int, c: int, dt: real)
    requires 0 <= i < c <= |a|
    requires !Survives(Decrement(a[i], dt))
    ensures multiset(Sweep(a, i, c, dt).0[i..Sweep(a, i, c, dt).1]) ==
      multiset(Survivors(a[i..c], dt))
    decreases c - i, 1
  {
    var b := a[i := Decrement(a[i], dt)];
    SweepDropStep(a, i, c, dt);
    DroppedSurvivors(a, i, c, dt);
    PermutesAfterDrop(a, b[i := b[c - 1]], i, c, dt);
  }

  /** The last step of DroppedSlot, with the array after the move e
      standing alone. */
  lemma {:induction false} PermutesAfterDrop(a: seq<Particle>, e: seq<Particle>, i: int, c: int, dt: real)
    requires 0 <= i < c <= |a| == |e|
    requires Sweep(a, i, c, dt) == Sweep(e, i, c - 1, dt)
    requires multiset(Survivors(e[i..c - 1], dt)) == multiset(Survivors(a[i..c], dt))
    ensures multiset(Sweep(a, i, c, dt).0[i..Sweep(a, i, c, dt).1]) ==
      multiset(Survivors(a[i..c], dt))
    decreases c - i, 0
  {
    SweepPermutes(e, i, c - 1, dt);
  }

  /** One unfolding of Sweep when slot i dies. */
  lemma SweepDropStep(a: seq<Particle>, i: int, c: int, dt: real)
    requires 0 <= i < c <= |a|
    requires !Survives(Decrement(a[i], dt))
    ensures var b := a[i := Decrement(a[i], dt)];
      Sweep(a, i, c, dt) == Sweep(b[i := b[c - 1]], i, c - 1, dt)
  {
    var b := a[i := Decrement(a[i], dt)];
    assert b[i] == Decrement(a[i], dt);
  }

  /** Dropping slot i and moving the last live slot into it leaves the
      survivors of the range unchanged, up to order. */
  lemma DroppedSurvivors(a: seq<Particle>, i: int, c: int, dt: real)
    requires 0 <= i < c <= |a|
    requires !Survives(Decrement(a[i], dt))
    ensures var b := a[i := Decrement(a[i], dt)];
      multiset(Survivors(b[i := b[c - 1]][i..c - 1], dt)) == multiset(Survivors(a[i..c], dt))
  {
    var b := a[i := Decrement(a[i], dt)];
    var e := b[i := b[c - 1]];
    var tail := a[i + 1..c];
    assert a[i..c] == [a[i]] + tail;
    assert Survivors([a[i]], dt) == [];
    SurvivorsConcat([a[i]], tail, dt);
    if i < c - 1 {
      var mid := a[i + 1..c - 1];
      assert e[i..c - 1] == [a[c - 1]] + mid;
      assert tail == mid + [a[c - 1]];
      SurvivorsRotate(a[c - 1], mid, dt);
    } else {
      assert e[i..c - 1] == [];
      assert tail == [];
    }
  }

  /** The compaction from the start: the slots from c on are untouched,
      and the new count is the number of aged survivors, which fill the
      prefix in some order. */
  lemma SweepCompacts(a: seq<Particle>, c: int, dt: real)
    requires 0 <= c <= |a|
    ensures Sweep(a, 0, c, dt).0[c..] == a[c..]
    ensures multiset(Sweep(a, 0, c, dt).0[..Sweep(a, 0, c, dt).1]) == multiset(Survivors(a[..c], dt))
    ensures Sweep(a, 0, c, dt).1 == |Survivors(a[..c], dt)|
    ensures forall k :: 0 <= k < Sweep(a, 0, c, dt).1 ==> Survives(Sweep(a, 0, c, dt).0[k])
  {
    SweepFrame(a, 0, c, dt);
    SweepLive(a, 0, c, dt);
    SweepPermutes(a, 0, c, dt);
    var r := Sweep(a, 0, c, dt);
    assert r.0[..r.1] == r.0[0..r.1] && a[..c] == a[0..c];
    assert |multiset(r.0[..r.1])| == r.1;
  }

  /** The compaction keeps the pool invariant. */
  lemma SweepPooled(a: seq<Particle>, c: int, dt: real)
    requires 0 <= c <= |a|
    requires Pooled(a[..c])
    ensures Pooled(Sweep(a, 0, c, dt).0[..Sweep(a, 0, c, dt).1])
  {
    SweepCompacts(a, c, dt);
    var r := Sweep(a, 0, c, dt);
    forall k | 0 <= k < r.1 ensures Survives(r.0[..r.1][k]) && SidesInRange(r.0[..r.1][k].sides) {
      SweptFrom(a, c, dt, k);
      var j :| 0 <= j < c && r.0[k] == Decrement(a[j], dt);
      assert a[..c][j] == a[j];
    }
  }

  /** A burst that shares one lifespan and has positive scales leaves the
      compaction whole when it outlives dt, and empty otherwise. */
  lemma SweepUniform(a: seq<Particle>, c: int, lifeSpan: real, dt: real)
    requires 0 <= c <= |a|
    requires forall k :: 0 <= k < c ==>
      a[k].lifeSpan == lifeSpan && a[k].scale.x > 0.0 && a[k].scale.y > 0.0
    ensures Sweep(a, 0, c, dt).1 == if lifeSpan - dt > 0.0 then c else 0
  {
    SweepCompacts(a, c, dt);
    SurvivorsUniform(a[..c], lifeSpan, dt);
  }

  /** ExplosionBehaviour: retarget vertically when more than 2 units off,
      steer towards the destination, renormalise the direction, then
      accelerate, spin, grow and move. */
  function Explode(p: Particle, dt: real, s: Settings, ops: FloatOps): Particle {
    var destination :=
      if Abs(p.position.y - p.destination.y) > 2.0
      then p.destination.(y := p.position.y +
        s.particlesDirection.y * ops.length(Sub(s.center, p.position)))
      else p.destination;
    var steered := Add(p.direction,
      Scaled(ops.normalize(Sub(destination, p.position)), ops.reciprocal(ops.length(p.speed))));
    var direction := ops.normalize(Add(steered, s.direction));
    var speed := Add(p.speed, s.speed);
    p.(destination := destination,
       direction := direction,
       speed := speed,
       rotation := p.rotation + s.rotation * dt,
       scale := Add(p.scale, s.scale),
       position := Add(p.position, Scaled(Scaled(Mul(direction, speed), dt), 1.0 / 5.0)))
  }

  /** The behaviour step leaves the side count, lifespan, colours and
      activity alone, changes only the y of the destination, and with
      non-negative scale increments keeps a survivor surviving. */
  lemma ExplodeKeeps(p: Particle, dt: real, s: Settings, ops: FloatOps)
    ensures Explode(p, dt, s, ops).sides == p.sides
    ensures Explode(p, dt, s, ops).lifeSpan == p.lifeSpan
    ensures Explode(p, dt, s, ops).isActive == p.isActive
    ensures Explode(p, dt, s, ops).stroke == p.stroke
    ensures Explode(p, dt, s, ops).fill == p.fill
    ensures Explode(p, dt, s, ops).destination.x == p.destination.x
    ensures Abs(p.position.y - p.destination.y) <= 2.0 ==>
      Explode(p, dt, s, ops).destination == p.destination
    ensures 0.0 <= s.scale.x && 0.0 <= s.scale.y && Survives(p) ==>
      Survives(Explode(p, dt, s, ops))
  {
  }

  /** The integration loop of Update: the behaviour step on each of the
      first n slots, the rest untouched. */
  function Integrate(a: seq<Particle>, n: int, dt: real, s: Settings, ops: FloatOps): (r: seq<Particle>)
    requires 0 <= n <= |a|
    ensures |r| == |a|
  {
    seq(|a|, k requires 0 <= k < |a| => if k < n then Explode(a[k], dt, s, ops) else a[k])
  }

  /** Every prefix of a pooled sequence has template rows throughout. */
  lemma PooledSides(ps: seq<Particle>, i: int)
    requires Pooled(ps)
    requires 0 <= i <= |ps|
    ensures AllSidesInRange(ps[..i])
  {
    assert forall k :: 0 <= k < i ==> ps[..i][k] == ps[k];
  }

  /** One Update call on slots a with c live particles: refill every slot
      when none is live, then age and compact, then move the survivors.
      The result is the new slots and the new count. */
  function Step(a: seq<Particle>, c: int, dt: real, s: Settings, ops: FloatOps,
                lifeSpan: real, draws: seq<EmitDraw>): (r: (seq<Particle>, int))
    requires 0 <= c <= |a|
    requires c == 0 ==> |draws| == |a|
    ensures |r.0| == |a|
    ensures 0 <= r.1 <= |a|
  {
    var a0 := if c == 0 then Burst(s, ops, draws, lifeSpan) else a;
    var c0 := if c == 0 then |a| else c;
    var swept := Sweep(a0, 0, c0, dt);
    (Integrate(swept.0, swept.1, dt, s, ops), swept.1)
  }

  /** A burst from legal draws satisfies the pool invariant. */
  lemma BurstPooled(s: Settings, ops: FloatOps, draws: seq<EmitDraw>, lifeSpan: real)
    requires forall k :: 0 <= k < |draws| ==> DrawOk(s, draws[k])
    requires s.dscale < 20.0
    ensures Pooled(Burst(s, ops, draws, lifeSpan))
  {
    BurstNewborn(s, ops, draws, lifeSpan);
  }

  /** Every slot of the compacted prefix is a particle of a[..c] aged once,
      with a positive lifespan and positive scales. */
  lemma SweptFrom(a: seq<Particle>, c: int, dt: real, k: int)
    requires 0 <= c <= |a|
    requires 0 <= k < Sweep(a, 0, c, dt).1
    ensures exists j :: 0 <= j < c && Sweep(a, 0, c, dt).0[k] == Decrement(a[j], dt)
    ensures Sweep(a, 0, c, dt).0[k].lifeSpan > 0.0
    ensures Sweep(a, 0, c, dt).0[k].scale.x > 0.0 && Sweep(a, 0, c, dt).0[k].scale.y > 0.0
  {
    SweepCompacts(a, c, dt);
    var r := Sweep(a, 0, c, dt);
    assert r.0[..r.1][k] == r.0[k];
    assert r.0[k] in multiset(r.0[..r.1]);
    SurvivorsMembers(a[..c], dt, r.0[k]);
    var j :| 0 <= j < c && r.0[k] == Decrement(a[..c][j], dt);
    assert r.0[k] == Decrement(a[j], dt);
  }

  /** The integration loop moves each of the first n slots by one behaviour
      step, leaves the rest alone, and keeps the pool invariant when the
      scale increments are non-negative. */
  lemma IntegrateKeeps(a: seq<Particle>, n: int, dt: real, s: Settings, ops: FloatOps)
    requires 0 <= n <= |a|
    requires Pooled(a[..n])
    requires 0.0 <= s.scale.x && 0.0 <= s.scale.y
    ensures Integrate(a, n, dt, s, ops)[n..] == a[n..]
    ensures forall k :: 0 <= k < n ==> Integrate(a, n, dt, s, ops)[k] == Explode(a[k], dt, s, ops)
    ensures Pooled(Integrate(a, n, dt, s, ops)[..n])
  {
    var r := Integrate(a, n, dt, s, ops);
    forall k | 0 <= k < n ensures Survives(r[..n][k]) && SidesInRange(r[..n][k].sides) {
      assert a[..n][k] == a[k];
      ExplodeKeeps(a[k], dt, s, ops);
    }
  }

  /** The integration loop's step: integrating nothing changes nothing,
      and one more slot is the behaviour step on that slot alone. */
  lemma IntegrateStep(a: seq<Particle>, j: int, dt: real, s: Settings, ops: FloatOps)
    requires 0 <= j <= |a|
    ensures Integrate(a, 0, dt, s, ops) == a
    ensures j < |a| ==>
      Integrate(a, j + 1, dt, s, ops) ==
      Integrate(a, j, dt, s, ops)[j := Explode(Integrate(a, j, dt, s, ops)[j], dt, s, ops)]
  {
  }

  /** The pool's invariant on its live prefix: every particle survives the
      removal test and has a template row. */
  predicate Pooled(ps: seq<Particle>) {
    forall k :: 0 <= k < |ps| ==> Survives(ps[k]) && SidesInRange(ps[k].sides)
  }

  /** Update keeps the pool invariant. Its new count is the number of aged
      survivors among the live particles (the fresh burst when the pool was
      empty), every live particle is one of those survivors moved by one
      behaviour step, and slots past the old count are not touched. */
  lemma StepKeepsPool(a: seq<Particle>, c: int, dt: real, s: Settings, ops: FloatOps,
                      lifeSpan: real, draws: seq<EmitDraw>)
    requires 0 <= c <= |a|
    requires Pooled(a[..c])
    requires c == 0 ==> |draws| == |a| && forall k :: 0 <= k < |draws| ==> DrawOk(s, draws[k])
    requires s.dscale < 20.0
    requires 0.0 <= s.scale.x && 0.0 <= s.scale.y
    ensures var a0 := if c == 0 then Burst(s, ops, draws, lifeSpan) else a;
      var c0 := if c == 0 then |a| else c;
      var r := Step(a, c, dt, s, ops, lifeSpan, draws);
      Pooled(r.0[..r.1]) &&
      r.1 == |Survivors(a0[..c0], dt)| &&
      r.0[c0..] == a0[c0..] &&
      (forall k :: 0 <= k < r.1 ==>
        exists j :: 0 <= j < c0 && r.0[k] == Explode(Decrement(a0[j], dt), dt, s, ops))
  {
    var a0 := if c == 0 then Burst(s, ops, draws, lifeSpan) else a;
    var c0 := if c == 0 then |a| else c;
    if c == 0 {
      BurstPooled(s, ops, draws, lifeSpan);
      assert a0[..c0] == a0;
    }
    SweepCompacts(a0, c0, dt);
    SweepPooled(a0, c0, dt);
    var swept := Sweep(a0, 0, c0, dt);
    IntegrateKeeps(swept.0, swept.1, dt, s, ops);
    var r := Step(a, c, dt, s, ops, lifeSpan, draws);
    forall k | 0 <= k < r.1
      ensures exists j :: 0 <= j < c0 && r.0[k] == Explode(Decrement(a0[j], dt), dt, s, ops)
    {
      SweptFrom(a0, c0, dt, k);
    }
  }
}
