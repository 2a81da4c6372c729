/** The geometry template cache: one row of unit-circle directions per
    supported side count, built once (the static constructor of Particle)
    and only read afterwards. */
module Templates {
  import opened Vectors
  import opened ParticleRecord

  /** One row per side count in [MinSides, MaxSides]. */
  const RowCount: int := (MaxSides - MinSides) + 1

  /** The row a particle looks up: _vertices[Sides - MinSides]. */
  function TemplateRow(sides: int): (i: int)
    requires SidesInRange(sides)
    ensures 0 <= i < RowCount
    ensures MinSides + i == sides
  {
    sides - MinSides
  }

  /** The table as the static constructor leaves it: RowCount rows,
      row i holding the MinSides + i directions of that polygon. */
  ghost predicate TemplatesOk(rows: array<array<Vec2>>, ops: FloatOps)
    reads rows, rows[..]
  {
    rows.Length == RowCount &&
    forall i :: 0 <= i < rows.Length ==>
      rows[i].Length == MinSides + i &&
      forall k :: 0 <= k < rows[i].Length ==> rows[i][k] == ops.polar(MinSides + i, k)
  }

  /** Fills one row with the directions of a regular polygon. */
  method SetVertices(points: array<Vec2>, sides: int, ops: FloatOps)
    requires points.Length == sides
    modifies points
    ensures forall k :: 0 <= k < sides ==> points[k] == ops.polar(sides, k)
  {
    for i := 0 to sides
      invariant forall k :: 0 <= k < i ==> points[k] == ops.polar(sides, k)
    {
      points[i] := ops.polar(sides, i);
    }
  }

  /** The static constructor: allocates the rows in order of side count. */
  method BuildTemplates(ops: FloatOps) returns (rows: array<array<Vec2>>)
    ensures fresh(rows)
    ensures TemplatesOk(rows, ops)
  {
    var unset := new Vec2[0];
    rows := new array<Vec2>[RowCount](_ => unset);
    var i, sides := 0, MinSides;
    while i < rows.Length
      invariant 0 <= i <= rows.Length
      invariant sides == MinSides + i
      invariant forall j :: 0 <= j < i ==>
        rows[j].Length == MinSides + j &&
        forall k :: 0 <= k < rows[j].Length ==> rows[j][k] == ops.polar(MinSides + j, k)
    {
      var row := new Vec2[sides];
      SetVertices(row, sides, ops);
      rows[i] := row;
      i, sides := i + 1, sides + 1;
    }
  }
}
