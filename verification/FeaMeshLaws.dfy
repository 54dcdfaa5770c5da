/**
 What the mesh shows of the die: nodes on circles of the profile, the profile between the
 two wire radii, heat and strain along it. Where rounding is not the point it is left out.
 */
module FeaMeshLaws {
  import opened FeaMesh

  // ---------------------------------------------------------------- nodes on circles

  ghost predicate Unrounded(c: Config) {
    forall x :: c.f32(x) == x
  }

  /** Sine and cosine belong together at this angle. */
  predicate SineAndCosine(c: Config, theta: real) {
    c.cos(theta) * c.cos(theta) + c.sin(theta) * c.sin(theta) == 1.0
  }

  lemma OnCircle(r: real, cos: real, sin: real, y: real, z: real)
    requires y == r * cos && z == r * sin && cos * cos + sin * sin == 1.0
    ensures y * y + z * z == r * r
  {
    assert y * y == r * r * (cos * cos);
    assert z * z == r * r * (sin * sin);
    assert r * r * (cos * cos) + r * r * (sin * sin) == r * r * (cos * cos + sin * sin);
  }

  /** The rings divide the radius of a slice into equal parts. */
  lemma RingsAreEqualParts(c: Config, i: nat, j: nat)
    requires j < c.rings
    ensures RingRadius(c, i, j) * c.rings as real == SliceAt(c, i).radius * (j + 1) as real
  {
    TimesQuotient(SliceAt(c, i).radius, (j + 1) as real, c.rings as real);
  }

  lemma TimesQuotient(r: real, a: real, n: real)
    requires n > 0.0
    ensures r * (a / n) * n == r * a
  {
    assert r * (a / n) * n == r * (a / n * n);
  }

  lemma ExactNode(c: Config, i: nat, j: nat, k: nat)
    requires j < c.rings && k < c.segments && Unrounded(c)
    ensures NodeY(c, i, j, k) == RingRadius(c, i, j) * c.cos(Theta(c, k))
    ensures NodeZ(c, i, j, k) == RingRadius(c, i, j) * c.sin(Theta(c, k))
  {
  }

  lemma StoredNode(c: Config, data: seq<real>, i: nat, j: nat, k: nat)
    requires j < c.rings && k < c.segments && Holds(c, data, i, j, k)
    ensures Entry(c, data, i, j, k, 1) == NodeY(c, i, j, k) && Entry(c, data, i, j, k, 2) == NodeZ(c, i, j, k)
  {
    ColumnOfNode(c, data, i, j, k, 1);
    ColumnOfNode(c, data, i, j, k, 2);
  }

  lemma PlaceOfNode(c: Config, data: seq<real>, i: nat, j: nat, k: nat)
    requires j < c.rings && k < c.segments && Holds(c, data, i, j, k) && Unrounded(c)
    ensures Entry(c, data, i, j, k, 1) == RingRadius(c, i, j) * c.cos(Theta(c, k))
    ensures Entry(c, data, i, j, k, 2) == RingRadius(c, i, j) * c.sin(Theta(c, k))
  {
    StoredNode(c, data, i, j, k);
    ExactNode(c, i, j, k);
  }

  lemma NodeIsOnCircle(c: Config, i: nat, j: nat, k: nat, cos: real, sin: real, y: real, z: real)
    requires j < c.rings && k < c.segments && cos == c.cos(Theta(c, k)) && sin == c.sin(Theta(c, k))
    requires y == RingRadius(c, i, j) * cos && z == RingRadius(c, i, j) * sin && cos * cos + sin * sin == 1.0
    ensures y * y + z * z == RingRadius(c, i, j) * RingRadius(c, i, j)
  {
    OnCircle(RingRadius(c, i, j), cos, sin, y, z);
  }

  /** The place of a node lies on the circle of its ring. */
  lemma NodesLieOnTheirRing(c: Config, i: nat, j: nat, k: nat)
    requires j < c.rings && k < c.segments && Unrounded(c) && SineAndCosine(c, Theta(c, k))
    ensures var y, z := NodeY(c, i, j, k), NodeZ(c, i, j, k);
            y * y + z * z == RingRadius(c, i, j) * RingRadius(c, i, j)
  {
    ExactNode(c, i, j, k);
    NodeIsOnCircle(c, i, j, k, c.cos(Theta(c, k)), c.sin(Theta(c, k)), NodeY(c, i, j, k), NodeZ(c, i, j, k));
  }

  lemma NoTurn(c: Config)
    requires c.segments > 0
    ensures Theta(c, 0) == 0.0
  {
    assert 0.0 / c.segments as real == 0.0;
  }

  /** The first segment lies along the y axis. */
  lemma FirstSegmentIsUpright(c: Config, data: seq<real>, i: nat, j: nat)
    requires j < c.rings && 0 < c.segments && Holds(c, data, i, j, 0) && Unrounded(c)
    requires c.cos(0.0) == 1.0 && c.sin(0.0) == 0.0
    ensures Entry(c, data, i, j, 0, 1) == RingRadius(c, i, j) && Entry(c, data, i, j, 0, 2) == 0.0
  {
    PlaceOfNode(c, data, i, j, 0);
    NoTurn(c);
  }

  // ---------------------------------------------------------------- the profile

  lemma ShareIsBetween(part: real, whole: real)
    requires 0.0 <= part <= whole && 0.0 < whole
    ensures 0.0 <= part / whole <= 1.0
  {
    ProductOrder(0.0, part / whole, whole);
    ProductOrder(part / whole, 1.0, whole);
  }

  lemma PartOfDifference(t: real, d: real)
    requires 0.0 <= t <= 1.0 && 0.0 <= d
    ensures 0.0 <= t * d <= d
  {
    ProductGrows(0.0, t, d);
    ProductGrows(t, 1.0, d);
  }

  lemma ShareOfCone(c: Config, x: real)
    requires Zone(c, x) == 2
    ensures 0.0 <= (x + ConeLength(c)) / ConeLength(c) <= 1.0
  {
    ShareIsBetween(x + ConeLength(c), ConeLength(c));
  }

  lemma ShareOfRelief(c: Config, x: real)
    requires Zone(c, x) == 4
    ensures 0.0 <= (x - BearingLength(c)) / Max(ReliefLength(c), 0.001) <= 1.0
  {
    ShareIsBetween(x - BearingLength(c), Max(ReliefLength(c), 0.001));
  }

  lemma ConeRadiusIsBetween(c: Config, x: real, t: real)
    requires Zone(c, x) == 2 && t == (x + ConeLength(c)) / ConeLength(c) && 0.0 <= t <= 1.0 && c.dOut <= c.dIn
    ensures c.dOut / 2.0 <= SliceOf(c, x).radius <= c.dIn / 2.0
  {
    var d := c.dIn / 2.0 - c.dOut / 2.0;
    PartOfDifference(t, d);
    assert SliceOf(c, x).radius == c.dIn / 2.0 - t * d;
  }

  lemma ReliefRadiusIsBetween(c: Config, x: real, t: real)
    requires Zone(c, x) == 4 && t == (x - BearingLength(c)) / Max(ReliefLength(c), 0.001)
    requires 0.0 <= t <= 1.0 && c.dOut <= c.dIn
    ensures c.dOut / 2.0 <= SliceOf(c, x).radius <= (c.dIn / 2.0 + c.dOut / 2.0) / 2.0
  {
    var d := c.dIn / 2.0 - c.dOut / 2.0;
    PartOfDifference(t, d);
    assert SliceOf(c, x).radius == c.dOut / 2.0 + t * d * 0.5;
  }

  /**
   For a die that narrows the wire: the radius is the incoming one before the bell, the
   outgoing one in the bearing and behind the relief, between the two in the cone, and in the
   relief no larger than half way back.
   */
  lemma ProfileIsBetween(c: Config, x: real)
    requires c.dOut <= c.dIn
    ensures var s, rIn, rOut := SliceOf(c, x), c.dIn / 2.0, c.dOut / 2.0;
            && (s.zone == 0 ==> s.radius == rIn)
            && (s.zone == 2 ==> rOut <= s.radius <= rIn)
            && (s.zone == 3 || s.zone == 5 ==> s.radius == rOut)
            && (s.zone == 4 ==> rOut <= s.radius <= (rIn + rOut) / 2.0)
  {
    if Zone(c, x) == 2 {
      ShareOfCone(c, x);
      ConeRadiusIsBetween(c, x, (x + ConeLength(c)) / ConeLength(c));
    } else if Zone(c, x) == 4 {
      ShareOfRelief(c, x);
      ReliefRadiusIsBetween(c, x, (x - BearingLength(c)) / Max(ReliefLength(c), 0.001));
    }
  }

  /** Where the cone begins it has the incoming radius, and where it ends the outgoing one. */
  lemma ConeEnds(c: Config)
    requires c.dOut <= c.dIn
    ensures SliceOf(c, -ConeLength(c)).radius == c.dIn / 2.0
    ensures SliceOf(c, 0.0).radius == c.dOut / 2.0
  {
    var length := ConeLength(c);
    assert (-length + length) / length == 0.0;
    assert (0.0 + length) / length == 1.0;
  }

  lemma PartIsPositive(total: real, t: real)
    requires total > 0.0 && t > 0.0
    ensures total * 0.05 * t > 0.0
  {
    assert total * t > 0.0;
  }

  lemma BellStrain(c: Config, x: real)
    requires c.totalStrain > 0.0 && Zone(c, x) == 1 && x > -ConeLength(c) - 0.5
    ensures SliceOf(c, x).strain > 0.0
  {
    PartIsPositive(c.totalStrain, (x + ConeLength(c) + 0.5) / 0.5);
  }

  lemma ConeStartsUnstrained(c: Config)
    requires c.pow085(0.0) == 0.0
    ensures SliceOf(c, -ConeLength(c)).strain == 0.0
  {
    assert (-ConeLength(c) + ConeLength(c)) / ConeLength(c) == 0.0;
  }

  /**
   Bell and cone do not meet. Towards the end of the bell, wherever its circle has come down
   by more than nothing, the radius is below the incoming one and the strain above zero, while
   the cone begins with the incoming radius and no strain.
   */
  lemma BellAndConeDoNotMeet(c: Config, x: real)
    requires c.dOut <= c.dIn && c.totalStrain > 0.0 && c.pow085(0.0) == 0.0
    requires Zone(c, x) == 1 && x > -ConeLength(c) - 0.5
    requires var t := (x + ConeLength(c) + 0.5) / 0.5; c.sqrt(1.0 - t * t) < 1.0
    ensures SliceOf(c, x).radius < SliceOf(c, -ConeLength(c)).radius
    ensures SliceOf(c, x).strain > SliceOf(c, -ConeLength(c)).strain == 0.0
  {
    ConeEnds(c);
    BellStrain(c, x);
    ConeStartsUnstrained(c);
  }

  /** From the cone on the strain is never above the full one, which it has wherever the cone is passed. */
  lemma StrainIsReached(c: Config, x: real)
    requires c.totalStrain >= 0.0 && (forall t :: 0.0 <= t <= 1.0 ==> 0.0 <= c.pow085(t) <= 1.0)
    ensures var s := SliceOf(c, x);
            && (s.zone == 0 ==> s.strain == 0.0)
            && (s.zone == 2 ==> 0.0 <= s.strain <= c.totalStrain)
            && (s.zone >= 3 ==> s.strain == c.totalStrain)
  {
    if Zone(c, x) == 2 {
      ShareOfCone(c, x);
      PartOfDifference(c.pow085((x + ConeLength(c)) / ConeLength(c)), c.totalStrain);
    }
  }

  // ---------------------------------------------------------------- heat

  lemma ProductNotNegative(x: real, y: real)
    requires x >= 0.0 && y >= 0.0
    ensures x * y >= 0.0
  {
  }

  lemma SquareGrows(a: real, b: real)
    requires 0.0 <= a <= b
    ensures a * a <= b * b
  {
    ProductNotNegative(b - a, b + a);
    assert (b - a) * (b + a) == b * b - a * a;
  }

  lemma SquaresGrow(a: real, b: real)
    requires 0.0 <= a <= b <= 1.0
    ensures 0.0 <= a * a && a * a <= b * b && b * b <= 1.0
  {
    ProductNotNegative(a, a);
    SquareGrows(a, b);
    SquareGrows(b, 1.0);
  }

  lemma FractionsGrow(c: Config, j: nat, j': nat)
    requires j <= j' < c.rings
    ensures 0.0 <= RingFraction(c, j) <= RingFraction(c, j') <= 1.0
    ensures j' == c.rings - 1 ==> RingFraction(c, j') == 1.0
  {
    ShareIsBetween((j + 1) as real, c.rings as real);
    QuotientGrows((j + 1) as real, (j' + 1) as real, c.rings as real);
    ShareIsBetween((j' + 1) as real, c.rings as real);
  }

  lemma RingsGrow(c: Config, j: nat, j': nat)
    requires j <= j' < c.rings
    ensures 0.0 <= Proximity(c, j) <= Proximity(c, j') <= 1.0
    ensures j' == c.rings - 1 ==> Proximity(c, j') == 1.0
  {
    FractionsGrow(c, j, j');
    SquaresGrow(RingFraction(c, j), RingFraction(c, j'));
  }

  /** What friction adds at the surface of a slice. */
  function SurfaceHeat(c: Config, zone: nat): real {
    if zone == 2 || zone == 3 then 35.0 * (c.friction / 0.06) else 10.0
  }

  lemma Regroup(near: real, friction: real)
    ensures near * 35.0 * friction == near * (35.0 * friction)
  {
  }

  lemma HeatAtRing(c: Config, i: nat, j: nat)
    requires j < c.rings && Unrounded(c)
    ensures Temperature(c, i, j)
         == 25.0 + SliceAt(c, i).strain / Max(c.totalStrain, 0.001) * c.adiabaticScale
            + Proximity(c, j) * SurfaceHeat(c, SliceAt(c, i).zone)
  {
    Regroup(Proximity(c, j), c.friction / 0.06);
  }

  /**
   Towards the surface of a slice it never gets colder, and at the surface itself friction
   adds 35 degrees for each 0.06 of it in the cone and the bearing, and 10 elsewhere.
   */
  lemma SurfaceIsHottest(c: Config, i: nat, j: nat, j': nat)
    requires j <= j' < c.rings && c.friction >= 0.0 && Unrounded(c)
    ensures Temperature(c, i, j) <= Temperature(c, i, j')
    ensures j' == c.rings - 1 ==>
              Temperature(c, i, j')
              == 25.0 + SliceAt(c, i).strain / Max(c.totalStrain, 0.001) * c.adiabaticScale
                 + SurfaceHeat(c, SliceAt(c, i).zone)
  {
    HeatAtRing(c, i, j);
    HeatAtRing(c, i, j');
    RingsGrow(c, j, j');
    FrictionHeats(c, SliceAt(c, i).zone);
    ProductGrows(Proximity(c, j), Proximity(c, j'), SurfaceHeat(c, SliceAt(c, i).zone));
  }

  lemma NotNegative(friction: real)
    requires friction >= 0.0
    ensures 35.0 * (friction / 0.06) >= 0.0
  {
  }

  lemma FrictionHeats(c: Config, zone: nat)
    requires c.friction >= 0.0
    ensures SurfaceHeat(c, zone) >= 0.0
  {
    NotNegative(c.friction);
  }

  // ---------------------------------------------------------------- stress

  /** A pressure from all sides adds nothing; a pull alone counts as itself, shear alone three times its square. */
  lemma StressIsOfDifferences(z: real, r: real, theta: real, shear: real, pressure: real)
    ensures Equivalent(z + pressure, r + pressure, theta + pressure, shear) == Equivalent(z, r, theta, shear)
    ensures Equivalent(z, 0.0, 0.0, 0.0) == z * z
    ensures Equivalent(0.0, 0.0, 0.0, shear) == 3.0 * (shear * shear)
  {
    assert z + pressure - (r + pressure) == z - r;
    assert r + pressure - (theta + pressure) == r - theta;
    assert theta + pressure - (z + pressure) == theta - z;
    assert Square(0.0 - z) == z * z;
  }

  /**
   At the surface the wire is pulled with four fifths of the axial stress, pressed with 0.4
   and 0.2 of the drawing stress, and sheared with a quarter of it times the friction, this
   in the cone and the bearing only. Towards the axis the pull grows by up to a quarter of
   itself and the others vanish with the square of the radius.
   */
  lemma StressesByDepth(c: Config, s: Slice, near: real)
    ensures Pull(c, s, 1.0) == c.drawingStress * s.axialFactor * 0.8
    ensures Pull(c, s, 0.0) == c.drawingStress * s.axialFactor
    ensures Squeeze(c, near) == near * (-0.4 * c.drawingStress)
    ensures Hoop(c, near) == near * (-0.2 * c.drawingStress)
    ensures s.zone != 2 && s.zone != 3 ==> Shear(c, s, near) == 0.0
    ensures s.zone == 2 || s.zone == 3 ==> Shear(c, s, near) == near * (0.25 * c.drawingStress * c.friction)
  {
    PullByDepth(c.drawingStress * s.axialFactor);
    ShearByDepth(c.drawingStress, near, c.friction);
  }

  lemma PullByDepth(axial: real)
    ensures axial * (0.8 + 0.2 * (1.0 - 1.0)) == axial * 0.8 && axial * (0.8 + 0.2 * (1.0 - 0.0)) == axial
  {
  }

  lemma ShearByDepth(d: real, near: real, friction: real)
    ensures d * 0.25 * near * friction == near * (0.25 * d * friction)
  {
  }

  /** The stress stored for a node is the equivalent of those four. */
  lemma StoredStressIsEquivalent(c: Config, data: seq<real>, i: nat, j: nat, k: nat)
    requires j < c.rings && k < c.segments && Holds(c, data, i, j, k) && Unrounded(c)
    ensures var s, near := SliceAt(c, i), Proximity(c, j);
            Entry(c, data, i, j, k, 3)
            == c.sqrt(Max(Equivalent(Pull(c, s, near), Squeeze(c, near), Hoop(c, near), Shear(c, s, near)), 0.0))
  {
    ColumnOfNode(c, data, i, j, k, 3);
  }
}
