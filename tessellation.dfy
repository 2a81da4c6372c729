/** The tessellator: a particle becomes a fan of triangles written into a
    shared flat vertex buffer at a running cursor (Particle.CopyTo), and
    the draw loop chains these writes over the active particles. */
module Tessellation {
  import opened Vectors
  import opened ParticleRecord
  import opened Templates

  /** What one vertex slot of a fan holds: the centre, or a rim vertex
      given by its index into the side count's template row. */
  datatype Corner = Centre | Rim(index: int)

  /** The rim vertex after j going round an S-gon: j + 1, wrapping from
      S - 1 back to 0 for the closing triangle. */
  function Next(sides: int, j: int): (n: int)
    requires 0 <= j < sides
    ensures 0 <= n < sides
    ensures n == (j + 1) % sides
  {
    if j < sides - 1 then j + 1 else 0
  }

  /** The corner at offset k of an S-sided particle's fan, in the order
      CopyTo writes them: triangle i is (rim i, rim Next(i), centre). */
  function Slot(sides: int, k: int): (c: Corner)
    requires SidesInRange(sides)
    requires 0 <= k < Vertices(sides)
    ensures c.Centre? <==> k % 3 == 2
    ensures c.Rim? ==> 0 <= c.index < sides
  {
    var i := k / 3;
    if k % 3 == 2 then Centre
    else if k % 3 == 0 then Rim(i)
    else Rim(Next(sides, i))
  }

  /** Triangle j of the fan joins rim vertices j and Next(j) around the
      centre. */
  lemma SlotTriangle(sides: int, j: int)
    requires SidesInRange(sides)
    requires 0 <= j < sides
    ensures Slot(sides, 3 * j) == Rim(j)
    ensures Slot(sides, 3 * j + 1) == Rim(Next(sides, j))
    ensures Slot(sides, 3 * j + 2) == Centre
  {
    assert (3 * j) / 3 == j && (3 * j) % 3 == 0;
    assert (3 * j + 1) / 3 == j && (3 * j + 1) % 3 == 1;
    assert (3 * j + 2) % 3 == 2;
  }

  /** The rim vertex before r going round an S-gon. */
  function Prev(sides: int, r: int): (q: int)
    requires 0 <= r < sides
    ensures 0 <= q < sides && Next(sides, q) == r
    ensures q == (r + sides - 1) % sides
  {
    if r == 0 then sides - 1 else r - 1
  }

  /** A rim slot holds r only where triangle r starts or where triangle
      Prev(r) ends. */
  lemma RimOnlyAt(sides: int, r: int, k: int)
    requires SidesInRange(sides)
    requires 0 <= r < sides
    requires 0 <= k < Vertices(sides) && Slot(sides, k) == Rim(r)
    ensures k == 3 * r || k == 3 * Prev(sides, r) + 1
  {
    var j := k / 3;
    assert k == 3 * j + k % 3;
    SlotTriangle(sides, j);
  }

  /** Every rim vertex r is shared by exactly the two triangles that meet
      at it: it starts triangle r and ends triangle Prev(r). */
  lemma RimSharedByNeighbours(sides: int, r: int)
    requires SidesInRange(sides)
    requires 0 <= r < sides
    ensures Slot(sides, 3 * r) == Rim(r)
    ensures Slot(sides, 3 * Prev(sides, r) + 1) == Rim(r)
    ensures forall k :: 0 <= k < Vertices(sides) && Slot(sides, k) == Rim(r) ==>
      k == 3 * r || k == 3 * Prev(sides, r) + 1
  {
    SlotTriangle(sides, r);
    SlotTriangle(sides, Prev(sides, r));
    forall k | 0 <= k < Vertices(sides) && Slot(sides, k) == Rim(r)
      ensures k == 3 * r || k == 3 * Prev(sides, r) + 1
    {
      RimOnlyAt(sides, r, k);
    }
  }

  /** The vertex at offset k of a particle's fan: the centre in the fill
      colour, or a transformed template vertex in the stroke colour. */
  function FanVertex(p: Particle, ops: FloatOps, k: int): PositionColor
    requires SidesInRange(p.sides)
    requires 0 <= k < Vertices(p.sides)
  {
    match Slot(p.sides, k)
    case Centre => PositionColor(p.position, p.fill)
    case Rim(r) => PositionColor(ops.transform(p, ops.polar(p.sides, r)), p.stroke)
  }

  /** The vertices CopyTo writes for one particle. */
  function Fan(p: Particle, ops: FloatOps): (f: seq<PositionColor>)
    requires SidesInRange(p.sides)
    ensures |f| == Vertices(p.sides)
  {
    seq(Vertices(p.sides), k requires 0 <= k < Vertices(p.sides) => FanVertex(p, ops, k))
  }

  /** Triangle j of a particle's fan, vertex by vertex: rim j and rim
      Next(j), placed by the particle's transform in its stroke colour,
      then the centre in its fill colour. */
  lemma FanTriangle(p: Particle, ops: FloatOps, j: int)
    requires SidesInRange(p.sides)
    requires 0 <= j < p.sides
    ensures Fan(p, ops)[3 * j] == PositionColor(ops.transform(p, ops.polar(p.sides, j)), p.stroke)
    ensures Fan(p, ops)[3 * j + 1] ==
      PositionColor(ops.transform(p, ops.polar(p.sides, Next(p.sides, j))), p.stroke)
    ensures Fan(p, ops)[3 * j + 2] == PositionColor(p.position, p.fill)
  {
    SlotTriangle(p.sides, j);
  }

  /** Every third vertex of a fan is the particle's centre in its fill
      colour; all the others are rim vertices in its stroke colour. */
  lemma FanColours(p: Particle, ops: FloatOps)
    requires SidesInRange(p.sides)
    ensures forall k :: 0 <= k < Vertices(p.sides) && k % 3 == 2 ==>
      Fan(p, ops)[k] == PositionColor(p.position, p.fill)
    ensures forall k :: 0 <= k < Vertices(p.sides) && k % 3 != 2 ==>
      Fan(p, ops)[k].color == p.stroke
  {
    forall k | 0 <= k < Vertices(p.sides)
      ensures Fan(p, ops)[k] == FanVertex(p, ops, k)
    {
    }
  }

  /** Writes triangle t of a fan into the three buffer slots after the
      3t already written. */
  method PutTriangle(buffer: array<PositionColor>, stride: int, t: int, ghost fan: seq<PositionColor>,
                     first: PositionColor, second: PositionColor, centre: PositionColor)
    requires 0 <= stride && 0 <= t && 3 * t + 3 <= |fan| && stride + |fan| <= buffer.Length
    requires forall k :: 0 <= k < 3 * t ==> buffer[stride + k] == fan[k]
    requires first == fan[3 * t] && second == fan[3 * t + 1] && centre == fan[3 * t + 2]
    modifies buffer
    ensures forall k :: 0 <= k < 3 * t + 3 ==> buffer[stride + k] == fan[k]
    ensures forall j :: 0 <= j < stride ==> buffer[j] == old(buffer[j])
    ensures forall j :: stride + 3 * t + 3 <= j < buffer.Length ==> buffer[j] == old(buffer[j])
  {
    buffer[stride + 3 * t] := first;
    buffer[stride + 3 * t + 1] := second;
    buffer[stride + 3 * t + 2] := centre;
  }

  /** The body of CopyTo once the template row is looked up: the loop
      over the S - 1 fan triangles, then the closing triangle. */
  method WriteFan(p: Particle, vertices: array<Vec2>, ops: FloatOps,
                  buffer: array<PositionColor>, stride: int)
    requires SidesInRange(p.sides)
    requires vertices.Length == p.sides
    requires forall r :: 0 <= r < p.sides ==> vertices[r] == ops.polar(p.sides, r)
    requires 0 <= stride && stride + Vertices(p.sides) <= buffer.Length
    modifies buffer
    ensures forall k :: 0 <= k < Vertices(p.sides) ==> buffer[stride + k] == Fan(p, ops)[k]
    ensures forall j :: 0 <= j < stride ==> buffer[j] == old(buffer[j])
    ensures forall j :: stride + Vertices(p.sides) <= j < buffer.Length ==> buffer[j] == old(buffer[j])
  {
    var sides := p.sides;
    ghost var fan := Fan(p, ops);
    for i := 0 to sides - 1
      invariant forall k :: 0 <= k < 3 * i ==> buffer[stride + k] == fan[k]
      invariant forall j :: 0 <= j < stride ==> buffer[j] == old(buffer[j])
      invariant forall j :: stride + 3 * i <= j < buffer.Length ==> buffer[j] == old(buffer[j])
    {
      FanTriangle(p, ops, i);
      PutTriangle(buffer, stride, i, fan,
        PositionColor(ops.transform(p, vertices[i]), p.stroke),
        PositionColor(ops.transform(p, vertices[i + 1]), p.stroke),
        PositionColor(p.position, p.fill));
    }
    FanTriangle(p, ops, sides - 1);
    PutTriangle(buffer, stride, sides - 1, fan,
      PositionColor(ops.transform(p, vertices[sides - 1]), p.stroke),
      PositionColor(ops.transform(p, vertices[0]), p.stroke),
      PositionColor(p.position, p.fill));
  }

  /** Particle.CopyTo: writes the particle's fan at buffer[stride..]
      and returns the advanced cursor (the ref parameter of the source). */
  method CopyTo(p: Particle, rows: array<array<Vec2>>, ops: FloatOps,
                buffer: array<PositionColor>, stride: int) returns (next: int)
    requires TemplatesOk(rows, ops)
    requires SidesInRange(p.sides)
    requires 0 <= stride && stride + Vertices(p.sides) <= buffer.Length
    modifies buffer
    ensures next == stride + Vertices(p.sides)
    ensures buffer[stride..next] == Fan(p, ops)
    ensures buffer[..next] == old(buffer[..stride]) + Fan(p, ops)
    ensures forall j :: 0 <= j < stride ==> buffer[j] == old(buffer[j])
    ensures forall j :: next <= j < buffer.Length ==> buffer[j] == old(buffer[j])
  {
    var vertices := rows[TemplateRow(p.sides)];
    WriteFan(p, vertices, ops, buffer, stride);
    next := stride + Vertices(p.sides);
    assert buffer[..next] == buffer[..stride] + buffer[stride..next];
  }

  /** The vertex count the draw loop accumulates over ps. */
  function SumVertices(ps: seq<Particle>): int
    decreases |ps|
  {
    if ps == [] then 0 else SumVertices(ps[..|ps| - 1]) + Vertices(ps[|ps| - 1].sides)
  }

  /** The buffer prefix the draw loop writes for ps: their fans, one
      after the other. */
  function Frame(ps: seq<Particle>, ops: FloatOps): (r: seq<PositionColor>)
    requires AllSidesInRange(ps)
    ensures |r| == SumVertices(ps)
    decreases |ps|
  {
    if ps == [] then [] else Frame(ps[..|ps| - 1], ops) + Fan(ps[|ps| - 1], ops)
  }

  /** The total fits a buffer of MaxVertices slots per particle and
      is a whole number of triangles. */
  lemma {:induction false} SumVerticesBound(ps: seq<Particle>)
    requires AllSidesInRange(ps)
    ensures 0 <= SumVertices(ps) <= |ps| * MaxVertices
    ensures SumVertices(ps) % 3 == 0
  {
    if ps != [] {
      SumVerticesBound(ps[..|ps| - 1]);
    }
  }

  /** The draw loop's step: one more particle appends its fan. */
  lemma FrameStep(ps: seq<Particle>, ops: FloatOps, i: int)
    requires AllSidesInRange(ps)
    requires 0 <= i < |ps|
    ensures AllSidesInRange(ps[..i]) && AllSidesInRange(ps[..i + 1])
    ensures SumVertices(ps[..i + 1]) == SumVertices(ps[..i]) + Vertices(ps[i].sides)
    ensures Frame(ps[..i + 1], ops) == Frame(ps[..i], ops) + Fan(ps[i], ops)
    ensures 0 <= SumVertices(ps[..i]) && SumVertices(ps[..i + 1]) <= SumVertices(ps)
  {
    assert ps[..i + 1][..i] == ps[..i];
    FramePrefix(ps, ops, i);
    FramePrefix(ps, ops, i + 1);
  }

  /** The frame of a prefix of the particles is a prefix of the frame. */
  lemma {:induction false} FramePrefix(ps: seq<Particle>, ops: FloatOps, j: int)
    requires AllSidesInRange(ps)
    requires 0 <= j <= |ps|
    ensures 0 <= SumVertices(ps[..j]) <= SumVertices(ps)
    ensures Frame(ps, ops)[..SumVertices(ps[..j])] == Frame(ps[..j], ops)
    decreases |ps|
  {
    SumVerticesBound(ps[..j]);
    if j == |ps| {
      assert ps[..j] == ps;
    } else {
      var init := ps[..|ps| - 1];
      assert init[..j] == ps[..j];
      FramePrefix(init, ops, j);
      SumVerticesBound(init);
      assert Frame(ps, ops) == Frame(init, ops) + Fan(ps[|ps| - 1], ops);
    }
  }

  /** Particle j's fan sits in the frame right after the fans of the
      particles before it. */
  lemma FrameLayout(ps: seq<Particle>, ops: FloatOps, j: int)
    requires AllSidesInRange(ps)
    requires 0 <= j < |ps|
    ensures 0 <= SumVertices(ps[..j])
    ensures SumVertices(ps[..j + 1]) == SumVertices(ps[..j]) + Vertices(ps[j].sides)
    ensures SumVertices(ps[..j + 1]) <= SumVertices(ps)
    ensures Frame(ps, ops)[SumVertices(ps[..j]) .. SumVertices(ps[..j + 1])] == Fan(ps[j], ops)
  {
    var head := ps[..j + 1];
    assert head[..j] == ps[..j];
    SumVerticesBound(ps[..j]);
    FramePrefix(ps, ops, j + 1);
    assert Frame(head, ops) == Frame(ps[..j], ops) + Fan(ps[j], ops);
  }
}
