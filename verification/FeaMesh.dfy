/**
 The buffer of the wire-drawing mesh: three nested loops over slices, rings and segments,
 seven numbers a node. Numbers are reals; roots, powers, angles and the physics are
 parameters.
 */
module FeaMesh {

  const STRIDE: nat := 7

  /**
   `coneRatio` and `reliefRatio` are the reduction of radius over the tangents of the two
   die angles; `f32` is the rounding to single precision.
   */
  datatype Config = Config(
    dIn: real, dOut: real, coneRatio: real, reliefRatio: real, bearingPercent: real, friction: real,
    drawingStress: real, totalStrain: real, adiabaticScale: real,
    slices: nat, rings: nat, segments: nat,
    sqrt: real -> real, pow085: real -> real, pow07: real -> real, cos: real -> real, sin: real -> real, pi: real,
    f32: real -> real)

  datatype Mesh = Mesh(data: seq<real>, nodeCount: nat, maxStress: real, maxTemperature: real)

  function Max(x: real, y: real): real {
    if x < y then y else x
  }

  // ---------------------------------------------------------------- the zones along the axis

  function ConeLength(c: Config): real {
    Max(c.coneRatio, 0.2)
  }

  function BearingLength(c: Config): real {
    c.bearingPercent / 100.0 * c.dOut
  }

  function ReliefLength(c: Config): real {
    if c.reliefRatio < 0.2 then 0.2 else if c.reliefRatio > 5.0 then 5.0 else c.reliefRatio
  }

  function Entrance(c: Config): real {
    -ConeLength(c) - 0.5 - 1.0
  }

  function Exit(c: Config): real {
    BearingLength(c) + ReliefLength(c) + 1.0
  }

  function Along(c: Config, i: nat): real {
    i as real / (if c.slices < 2 then 1 else c.slices - 1) as real
  }

  function Position(c: Config, i: nat): real {
    Entrance(c) + Along(c, i) * (Exit(c) - Entrance(c))
  }

  function Zone(c: Config, x: real): (z: nat)
    ensures z <= 5
  {
    if x < -ConeLength(c) - 0.5 then 0
    else if x < -ConeLength(c) then 1
    else if x <= 0.0 then 2
    else if x <= BearingLength(c) then 3
    else if x <= BearingLength(c) + ReliefLength(c) then 4
    else 5
  }

  /** Whatever the lengths, a point further on is in no earlier zone. */
  lemma ZonesFollowTheAxis(c: Config, x: real, y: real)
    requires x <= y
    ensures Zone(c, x) <= Zone(c, y)
  {
  }

  lemma AlongGrows(c: Config, i: nat, j: nat)
    requires i <= j
    ensures Along(c, i) <= Along(c, j)
  {
    QuotientGrows(i as real, j as real, (if c.slices < 2 then 1 else c.slices - 1) as real);
  }

  lemma QuotientGrows(a: real, b: real, n: real)
    requires a <= b && n > 0.0
    ensures a / n <= b / n
  {
    ProductOrder(a / n, b / n, n);
  }

  lemma ProductOrder(a: real, b: real, n: real)
    requires a * n <= b * n && n > 0.0
    ensures a <= b
  {
    assert (b - a) * n >= 0.0;
  }

  lemma ProductGrows(a: real, b: real, n: real)
    requires a <= b && n >= 0.0
    ensures a * n <= b * n
  {
    assert (b - a) * n >= 0.0;
  }

  /** The zone of a slice never decreases, if only the mesh is not longer backwards. */
  lemma SliceZonesNeverDecrease(c: Config, i: nat, j: nat)
    requires i <= j && Exit(c) >= Entrance(c)
    ensures Zone(c, Position(c, i)) <= Zone(c, Position(c, j))
  {
    AlongGrows(c, i, j);
    ProductGrows(Along(c, i), Along(c, j), Exit(c) - Entrance(c));
    ZonesFollowTheAxis(c, Position(c, i), Position(c, j));
  }

  /** A bearing that is not negative is enough, and then the mesh runs through all of the die. */
  lemma MeshSpansTheDie(c: Config)
    requires BearingLength(c) >= 0.0
    ensures Exit(c) > Entrance(c)
    ensures Zone(c, Position(c, 0)) == 0
    ensures c.slices >= 2 ==> Zone(c, Position(c, c.slices - 1)) == 5
  {
    assert Along(c, 0) == 0.0;
    if c.slices >= 2 {
      assert Along(c, c.slices - 1) == 1.0;
    }
  }

  // ---------------------------------------------------------------- one slice, one ring, one node

  datatype Slice = Slice(x: real, zone: nat, radius: real, strain: real, axialFactor: real)

  /** The slice at a point of the axis. */
  function SliceOf(c: Config, x: real): (s: Slice)
    ensures s.x == x && s.zone == Zone(c, s.x)
  {
    var rIn, rOut := c.dIn / 2.0, c.dOut / 2.0;
    match Zone(c, x)
    case 0 => Slice(x, 0, rIn, 0.0, 0.2)
    case 1 =>
      var t := (x + ConeLength(c) + 0.5) / 0.5;
      Slice(x, 1, rIn - (1.0 - Max(c.sqrt(1.0 - t * t), 0.0)) * 0.05, c.totalStrain * 0.05 * t, 0.3 + 0.15 * t)
    case 2 =>
      var t := (x + ConeLength(c)) / ConeLength(c);
      Slice(x, 2, rIn - t * (rIn - rOut), c.totalStrain * c.pow085(t), 0.45 + 0.45 * c.pow07(t))
    case 3 =>
      var t := x / Max(BearingLength(c), 0.001);
      Slice(x, 3, rOut, c.totalStrain, 0.9 + 0.08 * t)
    case 4 =>
      var t := (x - BearingLength(c)) / Max(ReliefLength(c), 0.001);
      Slice(x, 4, rOut + t * (rIn - rOut) * 0.5, c.totalStrain, 0.35 * (1.0 - 0.5 * t))
    case _ => Slice(x, 5, rOut, c.totalStrain, 0.25)
  }

  function SliceAt(c: Config, i: nat): (s: Slice)
    ensures s.x == Position(c, i) && s.zone == Zone(c, s.x)
  {
    SliceOf(c, Position(c, i))
  }

  predicate InContact(zone: nat) {
    zone == 2 || zone == 3
  }

  function RingFraction(c: Config, j: nat): real
    requires c.rings > 0
  {
    (j + 1) as real / c.rings as real
  }

  function Proximity(c: Config, j: nat): real
    requires c.rings > 0
  {
    RingFraction(c, j) * RingFraction(c, j)
  }

  function Square(x: real): real {
    x * x
  }

  /** The square of the equivalent stress after von Mises. */
  function Equivalent(z: real, r: real, theta: real, shear: real): real {
    0.5 * (Square(z - r) + Square(r - theta) + Square(theta - z)) + 3.0 * Square(shear)
  }

  /** The four stresses at a depth; `near` is 1 at the surface and falls off towards the axis. */
  function Pull(c: Config, s: Slice, near: real): real {
    c.drawingStress * s.axialFactor * (0.8 + 0.2 * (1.0 - near))
  }

  function Squeeze(c: Config, near: real): real {
    -c.drawingStress * 0.4 * near
  }

  function Hoop(c: Config, near: real): real {
    -c.drawingStress * 0.2 * near
  }

  function Shear(c: Config, s: Slice, near: real): real {
    if InContact(s.zone) then c.drawingStress * 0.25 * near * c.friction else 0.0
  }

  function Stress(c: Config, i: nat, j: nat): real
    requires c.rings > 0
  {
    var s, near := SliceAt(c, i), Proximity(c, j);
    c.f32(c.sqrt(Max(Equivalent(Pull(c, s, near), Squeeze(c, near), Hoop(c, near), Shear(c, s, near)), 0.0)))
  }

  function Temperature(c: Config, i: nat, j: nat): real
    requires c.rings > 0
  {
    var s := SliceAt(c, i);
    var adiabatic := s.strain / Max(c.totalStrain, 0.001) * c.adiabaticScale;
    var contact := if InContact(s.zone) then Proximity(c, j) * 35.0 * (c.friction / 0.06) else Proximity(c, j) * 10.0;
    c.f32(25.0 + adiabatic + contact)
  }

  function Theta(c: Config, k: nat): real
    requires c.segments > 0
  {
    k as real / c.segments as real * 2.0 * c.pi
  }

  function RingRadius(c: Config, i: nat, j: nat): real
    requires c.rings > 0
  {
    SliceAt(c, i).radius * RingFraction(c, j)
  }

  function NodeY(c: Config, i: nat, j: nat, k: nat): real
    requires c.rings > 0 && c.segments > 0
  {
    c.f32(RingRadius(c, i, j) * c.cos(Theta(c, k)))
  }

  function NodeZ(c: Config, i: nat, j: nat, k: nat): real
    requires c.rings > 0 && c.segments > 0
  {
    c.f32(RingRadius(c, i, j) * c.sin(Theta(c, k)))
  }

  /** The seven numbers of a node: place, stress, temperature, strain and zone. */
  function Node(c: Config, i: nat, j: nat, k: nat): (n: seq<real>)
    requires c.rings > 0 && c.segments > 0
    ensures |n| == STRIDE
  {
    var s := SliceAt(c, i);
    [c.f32(s.x), NodeY(c, i, j, k), NodeZ(c, i, j, k),
     Stress(c, i, j), Temperature(c, i, j), c.f32(s.strain), c.f32(s.zone as real)]
  }

  // ---------------------------------------------------------------- the layout

  function Address(c: Config, i: nat, j: nat, k: nat): nat {
    ((i * c.rings + j) * c.segments + k) * STRIDE
  }

  /** Everything the loops have written before node (i, j, k). */
  ghost predicate Before(c: Config, i: nat, j: nat, k: nat, i': nat, j': nat, k': nat) {
    j' < c.rings && k' < c.segments && (i' < i || (i' == i && (j' < j || (j' == j && k' < k))))
  }

  ghost predicate Written(c: Config, data: seq<real>, i: nat, j: nat, k: nat) {
    && |data| == Address(c, i, j, k)
    && forall i': nat, j': nat, k': nat :: Before(c, i, j, k, i', j', k') ==> Holds(c, data, i', j', k')
  }

  ghost predicate Holds(c: Config, data: seq<real>, i: nat, j: nat, k: nat)
    requires j < c.rings && k < c.segments
  {
    var a := Address(c, i, j, k);
    a + STRIDE <= |data| && data[a..a + STRIDE] == Node(c, i, j, k)
  }

  /** Every node stands at its address. */
  ghost predicate HoldsAll(c: Config, data: seq<real>) {
    forall i: nat, j: nat, k: nat :: i < c.slices && j < c.rings && k < c.segments ==> Holds(c, data, i, j, k)
  }

  /** Entry `m` of node (i, j, k), read from the buffer. */
  function Entry(c: Config, data: seq<real>, i: nat, j: nat, k: nat, m: nat): real
    requires j < c.rings && k < c.segments && Holds(c, data, i, j, k) && m < STRIDE
  {
    data[Address(c, i, j, k) + m]
  }

  lemma AddressAfterSegments(c: Config, i: nat, j: nat)
    ensures Address(c, i, j, c.segments) == Address(c, i, j + 1, 0)
  {
    assert (i * c.rings + j) * c.segments + c.segments == (i * c.rings + (j + 1)) * c.segments;
  }

  lemma AddressAfterRings(c: Config, i: nat)
    ensures Address(c, i, c.rings, 0) == Address(c, i + 1, 0, 0)
  {
    assert i * c.rings + c.rings == (i + 1) * c.rings;
  }

  lemma AppendKeepsNode(c: Config, data: seq<real>, more: seq<real>, i: nat, j: nat, k: nat)
    requires j < c.rings && k < c.segments && Holds(c, data, i, j, k)
    ensures Holds(c, data + more, i, j, k)
  {
    var a := Address(c, i, j, k);
    assert (data + more)[a..a + STRIDE] == data[a..a + STRIDE];
  }

  lemma NodeAppended(c: Config, data: seq<real>, i: nat, j: nat, k: nat)
    requires j < c.rings && k < c.segments && Written(c, data, i, j, k)
    ensures Written(c, data + Node(c, i, j, k), i, j, k + 1)
  {
    var more := data + Node(c, i, j, k);
    assert more[|data|..|data| + STRIDE] == Node(c, i, j, k);
    assert Holds(c, more, i, j, k);
    forall i': nat, j': nat, k': nat | Before(c, i, j, k + 1, i', j', k') ensures Holds(c, more, i', j', k') {
      if !(i' == i && j' == j && k' == k) {
        AppendKeepsNode(c, data, Node(c, i, j, k), i', j', k');
      }
    }
  }

  lemma RingWritten(c: Config, data: seq<real>, i: nat, j: nat)
    requires Written(c, data, i, j, c.segments)
    ensures Written(c, data, i, j + 1, 0)
  {
    AddressAfterSegments(c, i, j);
  }

  lemma SliceWritten(c: Config, data: seq<real>, i: nat)
    requires Written(c, data, i, c.rings, 0)
    ensures Written(c, data, i + 1, 0, 0)
  {
    AddressAfterRings(c, i);
  }

  // ---------------------------------------------------------------- the two maxima

  datatype Column = StressColumn | TemperatureColumn

  function Value(c: Config, column: Column, i: nat, j: nat): real
    requires c.rings > 0
  {
    match column
    case StressColumn => Stress(c, i, j)
    case TemperatureColumn => Temperature(c, i, j)
  }

  ghost predicate EarlierRing(c: Config, i: nat, j: nat, i': nat, j': nat) {
    j' < c.rings && (i' < i || (i' == i && j' < j))
  }

  /** `top` is the larger of the floor and the values of all rings before (i, j), and is one of them. */
  ghost predicate IsTop(c: Config, column: Column, floor: real, i: nat, j: nat, top: real) {
    && top >= floor
    && (forall i': nat, j': nat :: EarlierRing(c, i, j, i', j') ==> Value(c, column, i', j') <= top)
    && (top == floor || exists i': nat, j': nat :: EarlierRing(c, i, j, i', j') && Value(c, column, i', j') == top)
  }

  lemma TopRaised(c: Config, column: Column, floor: real, i: nat, j: nat, top: real)
    requires j < c.rings && IsTop(c, column, floor, i, j, top)
    ensures IsTop(c, column, floor, i, j + 1, Max(top, Value(c, column, i, j)))
  {
    var v := Value(c, column, i, j);
    assert EarlierRing(c, i, j + 1, i, j);
    if v <= top && top != floor {
      var i': nat, j': nat :| EarlierRing(c, i, j, i', j') && Value(c, column, i', j') == top;
      assert EarlierRing(c, i, j + 1, i', j');
    }
    forall i': nat, j': nat | EarlierRing(c, i, j + 1, i', j') ensures Value(c, column, i', j') <= Max(top, v) {
      assert (i' == i && j' == j) || EarlierRing(c, i, j, i', j');
    }
  }

  lemma TopOfSlice(c: Config, column: Column, floor: real, i: nat, top: real)
    requires IsTop(c, column, floor, i, c.rings, top)
    ensures IsTop(c, column, floor, i + 1, 0, top)
  {
    forall i': nat, j': nat ensures EarlierRing(c, i + 1, 0, i', j') == EarlierRing(c, i, c.rings, i', j') {
    }
    if top != floor {
      var i': nat, j': nat :| EarlierRing(c, i, c.rings, i', j') && Value(c, column, i', j') == top;
      assert EarlierRing(c, i + 1, 0, i', j');
    }
  }

  // ---------------------------------------------------------------- the loops

  lemma SevenPushes(data: seq<real>, n: seq<real>)
    requires |n| == STRIDE
    ensures data + [n[0]] + [n[1]] + [n[2]] + [n[3]] + [n[4]] + [n[5]] + [n[6]] == data + n
  {
  }

  /** The seven pushes of the innermost loop. */
  method PushNode(c: Config, data: seq<real>, i: nat, j: nat, k: nat) returns (nodes: seq<real>)
    requires j < c.rings && k < c.segments
    ensures nodes == data + Node(c, i, j, k)
  {
    var s := SliceAt(c, i);
    nodes := data;
    nodes := nodes + [c.f32(s.x)];
    nodes := nodes + [NodeY(c, i, j, k)];
    nodes := nodes + [NodeZ(c, i, j, k)];
    nodes := nodes + [Stress(c, i, j)];
    nodes := nodes + [Temperature(c, i, j)];
    nodes := nodes + [c.f32(s.strain)];
    nodes := nodes + [c.f32(s.zone as real)];
    SevenPushes(data, Node(c, i, j, k));
  }

  method PushRing(c: Config, data: seq<real>, i: nat, j: nat) returns (nodes: seq<real>)
    requires j < c.rings && Written(c, data, i, j, 0)
    ensures Written(c, nodes, i, j + 1, 0)
  {
    nodes := data;
    for k := 0 to c.segments
      invariant Written(c, nodes, i, j, k)
    {
      NodeAppended(c, nodes, i, j, k);
      nodes := PushNode(c, nodes, i, j, k);
    }
    RingWritten(c, nodes, i, j);
  }

  method RaiseTop(c: Config, column: Column, ghost floor: real, i: nat, j: nat, top: real) returns (raised: real)
    requires j < c.rings && IsTop(c, column, floor, i, j, top)
    ensures IsTop(c, column, floor, i, j + 1, raised)
  {
    TopRaised(c, column, floor, i, j, top);
    var value := Value(c, column, i, j);
    raised := if value > top then value else top;
  }

  method PushSlice(c: Config, data: seq<real>, i: nat, stress: real, temperature: real)
    returns (nodes: seq<real>, maxStress: real, maxTemperature: real)
    requires Written(c, data, i, 0, 0)
    requires IsTop(c, StressColumn, 0.0, i, 0, stress) && IsTop(c, TemperatureColumn, 25.0, i, 0, temperature)
    ensures Written(c, nodes, i + 1, 0, 0)
    ensures IsTop(c, StressColumn, 0.0, i + 1, 0, maxStress)
    ensures IsTop(c, TemperatureColumn, 25.0, i + 1, 0, maxTemperature)
  {
    nodes, maxStress, maxTemperature := data, stress, temperature;
    for j := 0 to c.rings
      invariant Written(c, nodes, i, j, 0)
      invariant IsTop(c, StressColumn, 0.0, i, j, maxStress)
      invariant IsTop(c, TemperatureColumn, 25.0, i, j, maxTemperature)
    {
      maxStress := RaiseTop(c, StressColumn, 0.0, i, j, maxStress);
      maxTemperature := RaiseTop(c, TemperatureColumn, 25.0, i, j, maxTemperature);
      nodes := PushRing(c, nodes, i, j);
    }
    SliceWritten(c, nodes, i);
    TopOfSlice(c, StressColumn, 0.0, i, maxStress);
    TopOfSlice(c, TemperatureColumn, 25.0, i, maxTemperature);
  }

  /**
   The mesh: every node at its address and nothing else in the buffer; the two maxima are
   those of all rings, down to floors of 0 and 25.
   */
  method GenerateFeaMesh(c: Config) returns (mesh: Mesh)
    ensures |mesh.data| == c.slices * c.rings * c.segments * STRIDE && mesh.nodeCount == c.slices * c.rings * c.segments
    ensures HoldsAll(c, mesh.data)
    ensures IsTop(c, StressColumn, 0.0, c.slices, 0, mesh.maxStress)
    ensures IsTop(c, TemperatureColumn, 25.0, c.slices, 0, mesh.maxTemperature)
  {
    var nodes: seq<real> := [];
    var maxStress, maxTemperature := 0.0, 25.0;
    for i := 0 to c.slices
      invariant Written(c, nodes, i, 0, 0)
      invariant IsTop(c, StressColumn, 0.0, i, 0, maxStress)
      invariant IsTop(c, TemperatureColumn, 25.0, i, 0, maxTemperature)
    {
      nodes, maxStress, maxTemperature := PushSlice(c, nodes, i, maxStress, maxTemperature);
    }
    BufferLength(c, nodes);
    mesh := Mesh(nodes, |nodes| / STRIDE, maxStress, maxTemperature);
  }

  lemma BufferLength(c: Config, data: seq<real>)
    requires Written(c, data, c.slices, 0, 0)
    ensures |data| == c.slices * c.rings * c.segments * STRIDE && |data| / STRIDE == c.slices * c.rings * c.segments
  {
  }

  // ---------------------------------------------------------------- what the buffer shows

  /** Single precision holds the zone numbers exactly. */
  ghost predicate KeepsSmallIntegers(c: Config) {
    && c.f32(0.0) == 0.0 && c.f32(1.0) == 1.0 && c.f32(2.0) == 2.0
    && c.f32(3.0) == 3.0 && c.f32(4.0) == 4.0 && c.f32(5.0) == 5.0
  }

  /** Reading the zone column along the axis, on whatever rings and segments, it never decreases. */
  lemma ZoneColumnNeverDecreases(c: Config, data: seq<real>, i: nat, j: nat, k: nat, i': nat, j': nat, k': nat)
    requires KeepsSmallIntegers(c) && BearingLength(c) >= 0.0
    requires j < c.rings && k < c.segments && j' < c.rings && k' < c.segments && i <= i'
    requires Holds(c, data, i, j, k) && Holds(c, data, i', j', k')
    ensures Entry(c, data, i, j, k, 6) <= Entry(c, data, i', j', k', 6)
  {
    MeshSpansTheDie(c);
    SliceZonesNeverDecrease(c, i, i');
    ColumnOfNode(c, data, i, j, k, 6);
    ColumnOfNode(c, data, i', j', k', 6);
  }

  lemma ColumnOfNode(c: Config, data: seq<real>, i: nat, j: nat, k: nat, m: nat)
    requires j < c.rings && k < c.segments && Holds(c, data, i, j, k) && m < STRIDE
    ensures Entry(c, data, i, j, k, m) == Node(c, i, j, k)[m]
  {
    var a := Address(c, i, j, k);
    assert data[a..a + STRIDE][m] == data[a + m];
  }

  /**
   With at least one segment the maxima are in the buffer: no stored stress or temperature is
   above them, and each is stored somewhere unless it is still at its floor.
   */
  lemma MaximaAreStored(c: Config, data: seq<real>, column: Column, floor: real, top: real)
    requires c.segments > 0 && IsTop(c, column, floor, c.slices, 0, top) && HoldsAll(c, data)
    ensures forall i: nat, j: nat, k: nat ::
              i < c.slices && j < c.rings && k < c.segments ==> Entry(c, data, i, j, k, Place(column)) <= top
    ensures top == floor || exists i: nat, j: nat, k: nat ::
              i < c.slices && j < c.rings && k < c.segments && Entry(c, data, i, j, k, Place(column)) == top
  {
    forall i: nat, j: nat, k: nat | i < c.slices && j < c.rings && k < c.segments
      ensures Entry(c, data, i, j, k, Place(column)) <= top
    {
      StoredValue(c, data, column, i, j, k);
      assert EarlierRing(c, c.slices, 0, i, j);
    }
    if top != floor {
      var i: nat, j: nat :| EarlierRing(c, c.slices, 0, i, j) && Value(c, column, i, j) == top;
      StoredValue(c, data, column, i, j, 0);
    }
  }

  function Place(column: Column): nat {
    match column
    case StressColumn => 3
    case TemperatureColumn => 4
  }

  lemma StoredValue(c: Config, data: seq<real>, column: Column, i: nat, j: nat, k: nat)
    requires j < c.rings && k < c.segments && Holds(c, data, i, j, k)
    ensures Entry(c, data, i, j, k, Place(column)) == Value(c, column, i, j)
  {
    ColumnOfNode(c, data, i, j, k, Place(column));
  }
}
