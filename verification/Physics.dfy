/** The collision pass of the physics engine over exact reals: which pairs it resolves, and
    what it does to total momentum and total kinetic energy. */
module Physics {
  import opened Prelude

  // ----- Vectors -----

  datatype Vector3 = Vector3(x: real, y: real, z: real) {
    function Dot(other: Vector3): real {
      x * other.x + y * other.y + z * other.z
    }

    function Plus(other: Vector3): Vector3 {
      Vector3(x + other.x, y + other.y, z + other.z)
    }

    function Times(scalar: real): Vector3 {
      Vector3(x * scalar, y * scalar, z * scalar)
    }
  }

  const ZERO := Vector3(0.0, 0.0, 0.0)

  lemma DotIsNonNegative(v: Vector3)
    ensures if v == ZERO then v.Dot(v) == 0.0 else v.Dot(v) > 0.0
  {
    hide Square, Vector3.Dot;
    SquareIsPositive(v.x);
    SquareIsPositive(v.y);
    SquareIsPositive(v.z);
    DotBySquares(v);
  }

  ghost function Square(a: real): real {
    a * a
  }

  lemma DotBySquares(v: Vector3)
    ensures v.Dot(v) == Square(v.x) + Square(v.y) + Square(v.z)
  {
  }

  lemma SquareIsPositive(a: real)
    ensures a == 0.0 ==> Square(a) == 0.0
    ensures a != 0.0 ==> Square(a) > 0.0
  {
    hide Square, Product;
    SquareIsProduct(a);
    if a < 0.0 {
      ProductHasSign(-a, -a);
    } else if a > 0.0 {
      ProductHasSign(a, a);
    }
  }

  ghost function Product(a: real, b: real): real {
    a * b
  }

  lemma SquareIsProduct(a: real)
    ensures Square(a) == Product(a, a) == Product(-a, -a)
    ensures a == 0.0 ==> Square(a) == 0.0
  {
  }

  lemma ProductHasSign(a: real, b: real)
    requires a > 0.0 && b > 0.0
    ensures Product(a, b) > 0.0
  {
  }

  lemma ProductIsPositive(a: real, b: real)
    requires a > 0.0 && b > 0.0
    ensures a * b > 0.0
  {
  }

  // ----- Bodies -----

  datatype Body = Body(mass: real, position: Vector3, velocity: Vector3, elasticity: real, radius: real)

  function KineticEnergy(b: Body): real {
    0.5 * b.mass * b.velocity.Dot(b.velocity)
  }

  function Momentum(b: Body): Vector3 {
    b.velocity.Times(b.mass)
  }

  function DistanceSquared(a: Body, b: Body): real {
    var dx, dy, dz := b.position.x - a.position.x, b.position.y - a.position.y, b.position.z - a.position.z;
    dx * dx + dy * dy + dz * dz
  }

  /** The distance is less than the sum of the radii, said without a square root. */
  predicate Colliding(a: Body, b: Body) {
    a.radius + b.radius > 0.0 && DistanceSquared(a, b) < (a.radius + b.radius) * (a.radius + b.radius)
  }

  lemma CollidingComparesDistance(a: Body, b: Body, distance: real)
    requires var dx, dy, dz := b.position.x - a.position.x, b.position.y - a.position.y, b.position.z - a.position.z;
      distance >= 0.0 && distance * distance == dx * dx + dy * dy + dz * dz
    ensures Colliding(a, b) <==> distance < a.radius + b.radius
  {
    var r := a.radius + b.radius;
    if 0.0 < r {
      SquaresOrder(distance, r);
    }
  }

  lemma SquaresOrder(a: real, b: real)
    requires a >= 0.0 && b >= 0.0
    ensures a < b <==> a * a < b * b
  {
    assert b * b - a * a == (b - a) * (b + a);
    if a < b {
      ProductIsPositive(b - a, b + a);
    } else if b < a {
      ProductIsPositive(a - b, b + a);
      assert (b - a) * (b + a) == -((a - b) * (b + a));
    }
  }

  /** The velocities after an exchange, before damping. */
  function Exchanged(m1: real, m2: real, v1: Vector3, v2: Vector3): Vector3
    requires m1 + m2 != 0.0
  {
    v1.Times(m1 - m2).Plus(v2.Times(2.0).Times(m2)).Times(1.0 / (m1 + m2))
  }

  ghost function Axis(v1: real, v2: real, d: real, m: real, k: real): real {
    (v1 * d + v2 * 2.0 * m) * k
  }

  ghost function ExchangedAxis(m1: real, m2: real, v1: real, v2: real): real
    requires m1 + m2 != 0.0
  {
    Axis(v1, v2, m1 - m2, m2, 1.0 / (m1 + m2))
  }

  lemma ExchangedAxes(m1: real, m2: real, v1: Vector3, v2: Vector3)
    requires m1 + m2 != 0.0
    ensures Exchanged(m1, m2, v1, v2) ==
            Vector3(ExchangedAxis(m1, m2, v1.x, v2.x), ExchangedAxis(m1, m2, v1.y, v2.y), ExchangedAxis(m1, m2, v1.z, v2.z))
  {
    hide Axis, Vector3.Times, Vector3.Plus;
    AxesOfSum(v1, v2, m1 - m2, m2, 1.0 / (m1 + m2));
  }

  lemma AxesOfSum(v1: Vector3, v2: Vector3, d: real, m: real, k: real)
    ensures v1.Times(d).Plus(v2.Times(2.0).Times(m)).Times(k) ==
            Vector3(Axis(v1.x, v2.x, d, m, k), Axis(v1.y, v2.y, d, m, k), Axis(v1.z, v2.z, d, m, k))
  {
  }

  /** Both bodies after a collision: velocities exchanged by mass, then each damped. */
  function Resolved(a: Body, b: Body): (Body, Body)
    requires a.mass + b.mass != 0.0
  {
    var u := Exchanged(a.mass, b.mass, a.velocity, b.velocity);
    var w := Exchanged(b.mass, a.mass, b.velocity, a.velocity);
    (a.(velocity := u.Times(a.elasticity)), b.(velocity := w.Times(b.elasticity)))
  }

  // ----- One collision -----

  /** Along one axis the exchange is a reflection in the frame of the centre of mass. */
  lemma AxisExchange(m1: real, m2: real, v1: real, v2: real) returns (w: real)
    requires m1 + m2 != 0.0
    ensures w * (m1 + m2) == v2 - v1
    ensures ExchangedAxis(m1, m2, v1, v2) == v1 + 2.0 * m2 * w
    ensures ExchangedAxis(m2, m1, v2, v1) == v2 - 2.0 * m1 * w
  {
    var s := m1 + m2;
    w := (v2 - v1) / s;
    assert w * s == v2 - v1;
    var a := v1 * (m1 - m2) + v2 * 2.0 * m2;
    var b := v2 * (m2 - m1) + v1 * 2.0 * m1;
    assert a == (v1 + 2.0 * m2 * w) * s by {
      calc {
        (v1 + 2.0 * m2 * w) * s;
        v1 * s + 2.0 * m2 * (w * s);
        v1 * s + 2.0 * m2 * (v2 - v1);
        a;
      }
    }
    assert b == (v2 - 2.0 * m1 * w) * s by {
      calc {
        (v2 - 2.0 * m1 * w) * s;
        v2 * s - 2.0 * m1 * (w * s);
        v2 * s - 2.0 * m1 * (v2 - v1);
        b;
      }
    }
    CancelFactor(a, v1 + 2.0 * m2 * w, s);
    CancelFactor(b, v2 - 2.0 * m1 * w, s);
    assert m2 + m1 == s;
  }

  lemma CancelFactor(a: real, c: real, s: real)
    requires s != 0.0 && a == c * s
    ensures a * (1.0 / s) == c
  {
  }

  ghost function Weighted(m1: real, p: real, m2: real, q: real): real {
    m1 * p + m2 * q
  }

  lemma AxisConserves(m1: real, m2: real, v1: real, v2: real, w: real, u1: real, u2: real)
    requires w * (m1 + m2) == v2 - v1
    requires u1 == v1 + 2.0 * m2 * w && u2 == v2 - 2.0 * m1 * w
    ensures Weighted(m1, u1, m2, u2) == Weighted(m1, v1, m2, v2)
    ensures Weighted(m1, Square(u1), m2, Square(u2)) == Weighted(m1, Square(v1), m2, Square(v2))
  {
    assert u1 * u1 == v1 * v1 + 4.0 * (m2 * w) * v1 + 4.0 * (m2 * w) * (m2 * w);
    assert u2 * u2 == v2 * v2 - 4.0 * (m1 * w) * v2 + 4.0 * (m1 * w) * (m1 * w);
    var k := m1 * m2 * w;
    calc {
      m1 * (u1 * u1) + m2 * (u2 * u2);
      m1 * (v1 * v1) + m2 * (v2 * v2) + 4.0 * k * (v1 - v2) + 4.0 * k * (w * (m1 + m2));
      m1 * (v1 * v1) + m2 * (v2 * v2) + 4.0 * k * (v1 - v2) + 4.0 * k * (v2 - v1);
      m1 * (v1 * v1) + m2 * (v2 * v2);
    }
  }

  lemma AxisOfExchange(m1: real, m2: real, v1: real, v2: real)
    requires m1 + m2 != 0.0
    ensures var u1, u2 := ExchangedAxis(m1, m2, v1, v2), ExchangedAxis(m2, m1, v2, v1);
      Weighted(m1, u1, m2, u2) == Weighted(m1, v1, m2, v2) &&
      Weighted(m1, Square(u1), m2, Square(u2)) == Weighted(m1, Square(v1), m2, Square(v2))
  {
    hide ExchangedAxis, Weighted, Square;
    var w := AxisExchange(m1, m2, v1, v2);
    AxisConserves(m1, m2, v1, v2, w, ExchangedAxis(m1, m2, v1, v2), ExchangedAxis(m2, m1, v2, v1));
  }

  lemma MomentumByAxis(m1: real, m2: real, u: Vector3, w: Vector3)
    ensures u.Times(m1).Plus(w.Times(m2)) ==
            Vector3(Weighted(m1, u.x, m2, w.x), Weighted(m1, u.y, m2, w.y), Weighted(m1, u.z, m2, w.z))
  {
  }

  /** Twice the kinetic energy of a pair. */
  ghost function Twice(m1: real, u: Vector3, m2: real, w: Vector3): real {
    m1 * u.Dot(u) + m2 * w.Dot(w)
  }

  lemma EnergyByAxis(m1: real, m2: real, u: Vector3, w: Vector3)
    ensures Twice(m1, u, m2, w) ==
            Weighted(m1, Square(u.x), m2, Square(w.x)) + Weighted(m1, Square(u.y), m2, Square(w.y)) +
            Weighted(m1, Square(u.z), m2, Square(w.z))
  {
    DistributeDot(m1, u);
    DistributeDot(m2, w);
    hide Vector3.Dot;
  }

  lemma DistributeDot(m: real, v: Vector3)
    ensures m * v.Dot(v) == m * (v.x * v.x) + m * (v.y * v.y) + m * (v.z * v.z)
  {
  }

  /** The exchange alone keeps momentum and kinetic energy. */
  lemma ExchangeConserves(m1: real, m2: real, v1: Vector3, v2: Vector3)
    requires m1 + m2 != 0.0
    ensures var u, w := Exchanged(m1, m2, v1, v2), Exchanged(m2, m1, v2, v1);
      u.Times(m1).Plus(w.Times(m2)) == v1.Times(m1).Plus(v2.Times(m2)) &&
      Twice(m1, u, m2, w) == Twice(m1, v1, m2, v2)
  {
    hide Exchanged, ExchangedAxis, Weighted, Square, Twice, Vector3.Times, Vector3.Plus;
    var u, w := Exchanged(m1, m2, v1, v2), Exchanged(m2, m1, v2, v1);
    ExchangedAxes(m1, m2, v1, v2);
    ExchangedAxes(m2, m1, v2, v1);
    AxisOfExchange(m1, m2, v1.x, v2.x);
    AxisOfExchange(m1, m2, v1.y, v2.y);
    AxisOfExchange(m1, m2, v1.z, v2.z);
    MomentumByAxis(m1, m2, u, w);
    MomentumByAxis(m1, m2, v1, v2);
    EnergyByAxis(m1, m2, u, w);
    EnergyByAxis(m1, m2, v1, v2);
  }

  ghost predicate Damped(b: Body) {
    b.mass > 0.0 && 0.0 <= b.elasticity <= 1.0
  }

  /** Damping scales kinetic energy by the square of the elasticity. */
  lemma DampingScales(v: Vector3, e: real)
    ensures v.Times(e).Dot(v.Times(e)) == e * e * v.Dot(v)
  {
    assert (v.x * e) * (v.x * e) == e * e * (v.x * v.x);
    assert (v.y * e) * (v.y * e) == e * e * (v.y * v.y);
    assert (v.z * e) * (v.z * e) == e * e * (v.z * v.z);
  }

  lemma DampingLoses(m: real, v: Vector3, e: real)
    requires m > 0.0 && 0.0 <= e <= 1.0
    ensures if e == 1.0 || v == ZERO then m * v.Times(e).Dot(v.Times(e)) == m * v.Dot(v)
            else m * v.Times(e).Dot(v.Times(e)) < m * v.Dot(v)
  {
    hide Vector3.Dot, Vector3.Times;
    DampingScales(v, e);
    DotIsNonNegative(v);
    ScaledDown(m, v.Dot(v), e, v.Times(e).Dot(v.Times(e)));
  }

  lemma DampingIsPositive(e: real)
    requires 0.0 <= e < 1.0
    ensures 1.0 - e * e > 0.0
  {
    SquaresOrder(e, 1.0);
  }

  lemma ScaledDown(m: real, q: real, e: real, r: real)
    requires m > 0.0 && q >= 0.0 && 0.0 <= e <= 1.0 && r == e * e * q
    ensures if e == 1.0 || q == 0.0 then m * r == m * q else m * r < m * q
  {
    var k, f := m * q, 1.0 - e * e;
    assert m * r == k - f * k;
    if q == 0.0 {
      assert k == m * 0.0;
    } else {
      ProductIsPositive(m, q);
      if e < 1.0 {
        DampingIsPositive(e);
        ProductIsPositive(f, k);
      }
    }
  }

  /** Each of two colliding bodies is perfectly elastic or left at rest by the exchange. */
  ghost predicate Lossless(a: Body, b: Body)
    requires a.mass + b.mass != 0.0
  {
    (a.elasticity == 1.0 || Exchanged(a.mass, b.mass, a.velocity, b.velocity) == ZERO) &&
    (b.elasticity == 1.0 || Exchanged(b.mass, a.mass, b.velocity, a.velocity) == ZERO)
  }

  /** A collision never gains kinetic energy; it keeps it exactly when each body is perfectly
      elastic or left at rest, and between perfectly elastic bodies it also keeps momentum. */
  lemma CollisionEnergy(a: Body, b: Body)
    requires Damped(a) && Damped(b)
    ensures var (c, d) := Resolved(a, b);
      if Lossless(a, b) then
        KineticEnergy(c) + KineticEnergy(d) == KineticEnergy(a) + KineticEnergy(b)
      else
        KineticEnergy(c) + KineticEnergy(d) < KineticEnergy(a) + KineticEnergy(b)
    ensures a.elasticity == 1.0 && b.elasticity == 1.0 ==>
      var (c, d) := Resolved(a, b); Momentum(c).Plus(Momentum(d)) == Momentum(a).Plus(Momentum(b))
  {
    hide Exchanged, Vector3.Dot, Vector3.Times, Vector3.Plus;
    var u, w := Exchanged(a.mass, b.mass, a.velocity, b.velocity), Exchanged(b.mass, a.mass, b.velocity, a.velocity);
    ExchangeConserves(a.mass, b.mass, a.velocity, b.velocity);
    DampingLoses(a.mass, u, a.elasticity);
    DampingLoses(b.mass, w, b.elasticity);
    var (c, d) := Resolved(a, b);
    EnergyIsHalf(a);
    EnergyIsHalf(b);
    EnergyIsHalf(c);
    EnergyIsHalf(d);
    TimesOne(u);
    TimesOne(w);
    hide KineticEnergy;
  }

  lemma EnergyIsHalf(b: Body)
    ensures 2.0 * KineticEnergy(b) == b.mass * b.velocity.Dot(b.velocity)
  {
  }

  lemma TimesOne(v: Vector3)
    ensures v.Times(1.0) == v
  {
  }

  // ----- A pass over all pairs -----

  /** The pairs after (i, j-1) in the order of the two nested loops. */
  function PairsFrom(n: nat, i: nat, j: nat): (ps: seq<(nat, nat)>)
    decreases n - i, n - j
    ensures forall p <- ps :: i <= p.0 < p.1 < n
  {
    if i >= n then []
    else if i < j < n then [(i, j)] + PairsFrom(n, i, j + 1)
    else PairsFrom(n, i + 1, i + 2)
  }

  function Pairs(n: nat): seq<(nat, nat)> {
    PairsFrom(n, 0, 1)
  }

  /** The pairs the loops have still to visit when they stand at (i, j). */
  ghost predicate Ahead(n: nat, i: nat, j: nat, p: (nat, nat)) {
    p.0 < p.1 < n && (i < p.0 || (i == p.0 && j <= p.1))
  }

  /** The loops visit every pair of positions once, in order. */
  lemma {:induction false} PairsAreAll(n: nat, i: nat, j: nat)
    requires i < j
    ensures PairsAscend(PairsFrom(n, i, j))
    ensures forall p :: p in PairsFrom(n, i, j) <==> Ahead(n, i, j, p)
    decreases n - i, n - j
  {
    hide PairsAscend, PairBefore;
    if i >= n {
      assert PairsAscend([]) by { AscendingEmpty(); }
    } else if j < n {
      PairsAreAll(n, i, j + 1);
      AscendingPrepended((i, j), PairsFrom(n, i, j + 1), n);
    } else {
      PairsAreAll(n, i + 1, i + 2);
    }
  }

  lemma AscendingEmpty()
    ensures PairsAscend([])
  {
  }

  lemma AscendingPrepended(p: (nat, nat), ps: seq<(nat, nat)>, n: nat)
    requires PairsAscend(ps)
    requires forall q <- ps :: Ahead(n, p.0, p.1 + 1, q)
    ensures PairsAscend([p] + ps)
  {
    forall q | q in ps ensures PairBefore(p, q) {
      assert Ahead(n, p.0, p.1 + 1, q);
    }
  }

  /** A pass under way: the bodies, the collisions so far, and whether a division by a zero sum
      of masses has ended it. */
  datatype Sweep = Sweep(bodies: seq<Body>, collisions: seq<(nat, nat)>, raised: bool)

  function Visit(s: Sweep, p: (nat, nat)): (r: Sweep)
    requires p.0 < p.1 < |s.bodies|
    ensures |r.bodies| == |s.bodies|
  {
    var a, b := s.bodies[p.0], s.bodies[p.1];
    if s.raised || !Colliding(a, b) then s
    else if a.mass + b.mass == 0.0 then s.(collisions := s.collisions + [p], raised := true)
    else
      var (c, d) := Resolved(a, b);
      Sweep(s.bodies[p.0 := c][p.1 := d], s.collisions + [p], false)
  }

  function Pass(s: Sweep, ps: seq<(nat, nat)>): (r: Sweep)
    requires forall p <- ps :: p.0 < p.1 < |s.bodies|
    ensures |r.bodies| == |s.bodies|
    decreases |ps|
  {
    if ps == [] then s else Pass(Visit(s, ps[0]), ps[1..])
  }

  function CollisionPass(bodies: seq<Body>): Sweep {
    Pass(Sweep(bodies, [], false), Pairs(|bodies|))
  }

  ghost predicate SameButVelocity(a: Body, b: Body) {
    a.(velocity := ZERO) == b.(velocity := ZERO)
  }

  ghost predicate SameGeometry(bodies: seq<Body>, others: seq<Body>) {
    |bodies| == |others| && forall i :: 0 <= i < |bodies| ==> SameButVelocity(bodies[i], others[i])
  }

  lemma VisitKeepsGeometry(s: Sweep, p: (nat, nat))
    requires p.0 < p.1 < |s.bodies|
    ensures SameGeometry(s.bodies, Visit(s, p).bodies)
  {
  }

  /** The pair touches and, its masses cancelling, cannot be resolved. */
  ghost predicate Fatal(bodies: seq<Body>, p: (nat, nat))
    requires p.0 < p.1 < |bodies|
  {
    Colliding(bodies[p.0], bodies[p.1]) && bodies[p.0].mass + bodies[p.1].mass == 0.0
  }

  /** The pairs recorded by a pass, read off the bodies as they stood before it: the touching
      pairs in order, up to and including the first that cannot be resolved. */
  ghost function Recorded(bodies: seq<Body>, ps: seq<(nat, nat)>): seq<(nat, nat)>
    requires forall p <- ps :: p.0 < p.1 < |bodies|
  {
    if ps == [] then []
    else if !Colliding(bodies[ps[0].0], bodies[ps[0].1]) then Recorded(bodies, ps[1..])
    else if Fatal(bodies, ps[0]) then [ps[0]]
    else [ps[0]] + Recorded(bodies, ps[1..])
  }

  lemma {:induction false} PassRecords(start: seq<Body>, s: Sweep, ps: seq<(nat, nat)>)
    requires forall p <- ps :: p.0 < p.1 < |s.bodies|
    requires SameGeometry(start, s.bodies)
    requires !s.raised
    ensures SameGeometry(start, Pass(s, ps).bodies)
    ensures Pass(s, ps).collisions == s.collisions + Recorded(start, ps)
    ensures Pass(s, ps).raised <==> exists p <- ps :: Fatal(start, p)
    decreases |ps|
  {
    if ps != [] {
      var p, rest, next := ps[0], ps[1..], Visit(s, ps[0]);
      VisitKeepsGeometry(s, p);
      TouchingByGeometry(start, s.bodies, p);
      assert forall q :: q in ps <==> q == p || q in rest;
      if next.raised {
        RaisedStays(next, rest);
      } else {
        PassRecords(start, next, rest);
      }
    }
  }

  lemma TouchingByGeometry(start: seq<Body>, bodies: seq<Body>, p: (nat, nat))
    requires SameGeometry(start, bodies) && p.0 < p.1 < |bodies|
    ensures Colliding(start[p.0], start[p.1]) <==> Colliding(bodies[p.0], bodies[p.1])
    ensures Fatal(start, p) <==> Fatal(bodies, p)
  {
    assert SameButVelocity(start[p.0], bodies[p.0]) && SameButVelocity(start[p.1], bodies[p.1]);
  }

  lemma {:induction false} RaisedStays(s: Sweep, ps: seq<(nat, nat)>)
    requires forall p <- ps :: p.0 < p.1 < |s.bodies|
    requires s.raised
    ensures Pass(s, ps) == s
    decreases |ps|
  {
    if ps != [] {
      RaisedStays(s, ps[1..]);
    }
  }

  // ----- Totals -----

  function TotalEnergy(bodies: seq<Body>): real {
    if bodies == [] then 0.0 else TotalEnergy(bodies[..|bodies| - 1]) + KineticEnergy(bodies[|bodies| - 1])
  }

  function TotalMomentum(bodies: seq<Body>): Vector3 {
    if bodies == [] then ZERO else TotalMomentum(bodies[..|bodies| - 1]).Plus(Momentum(bodies[|bodies| - 1]))
  }

  function Minus(v: Vector3, w: Vector3): Vector3 {
    Vector3(v.x - w.x, v.y - w.y, v.z - w.z)
  }

  lemma {:induction false} TotalsAfterUpdate(bodies: seq<Body>, i: nat, b: Body)
    requires i < |bodies|
    ensures TotalEnergy(bodies[i := b]) == TotalEnergy(bodies) - KineticEnergy(bodies[i]) + KineticEnergy(b)
    ensures TotalMomentum(bodies[i := b]) == Minus(TotalMomentum(bodies).Plus(Momentum(b)), Momentum(bodies[i]))
  {
    hide KineticEnergy, Momentum;
    var n := |bodies| - 1;
    if i == n {
      assert bodies[i := b][..n] == bodies[..n];
    } else {
      assert bodies[i := b][..n] == bodies[..n][i := b];
      TotalsAfterUpdate(bodies[..n], i, b);
    }
  }

  ghost predicate AllDamped(bodies: seq<Body>) {
    forall i :: 0 <= i < |bodies| ==> Damped(bodies[i])
  }

  ghost predicate AllElastic(bodies: seq<Body>) {
    forall i :: 0 <= i < |bodies| ==> bodies[i].elasticity == 1.0
  }

  lemma PairTotals(bodies: seq<Body>, p: (nat, nat), c: Body, d: Body)
    requires p.0 < p.1 < |bodies|
    ensures var after := bodies[p.0 := c][p.1 := d];
      TotalEnergy(after) == TotalEnergy(bodies) - KineticEnergy(bodies[p.0]) - KineticEnergy(bodies[p.1]) + KineticEnergy(c) + KineticEnergy(d) &&
      (Momentum(c).Plus(Momentum(d)) == Momentum(bodies[p.0]).Plus(Momentum(bodies[p.1])) ==> TotalMomentum(after) == TotalMomentum(bodies))
  {
    hide KineticEnergy, Momentum, TotalEnergy, TotalMomentum;
    TotalsAfterUpdate(bodies, p.0, c);
    TotalsAfterUpdate(bodies[p.0 := c], p.1, d);
  }

  /** Whatever is resolved between the two is resolved without loss. */
  ghost predicate Spares(a: Body, b: Body) {
    Colliding(a, b) && a.mass + b.mass != 0.0 ==> Lossless(a, b)
  }

  lemma VisitTotals(s: Sweep, p: (nat, nat))
    requires p.0 < p.1 < |s.bodies|
    requires AllDamped(s.bodies) && !s.raised
    ensures AllDamped(Visit(s, p).bodies) && !Visit(s, p).raised
    ensures if Spares(s.bodies[p.0], s.bodies[p.1]) then TotalEnergy(Visit(s, p).bodies) == TotalEnergy(s.bodies)
            else TotalEnergy(Visit(s, p).bodies) < TotalEnergy(s.bodies)
    ensures AllElastic(s.bodies) ==>
      Spares(s.bodies[p.0], s.bodies[p.1]) && AllElastic(Visit(s, p).bodies) && TotalMomentum(Visit(s, p).bodies) == TotalMomentum(s.bodies)
  {
    hide KineticEnergy, Momentum, TotalEnergy, TotalMomentum, Exchanged, Colliding;
    var a, b := s.bodies[p.0], s.bodies[p.1];
    assert Damped(a) && Damped(b);
    CollisionEnergy(a, b);
    var (c, d) := Resolved(a, b);
    PairTotals(s.bodies, p, c, d);
  }

  /** Every collision that a pass resolves is lossless as it comes. */
  ghost predicate AllLossless(s: Sweep, ps: seq<(nat, nat)>)
    requires forall p <- ps :: p.0 < p.1 < |s.bodies|
    decreases |ps|
  {
    ps == [] || (Spares(s.bodies[ps[0].0], s.bodies[ps[0].1]) && AllLossless(Visit(s, ps[0]), ps[1..]))
  }

  lemma {:induction false} PassTotals(s: Sweep, ps: seq<(nat, nat)>)
    requires forall p <- ps :: p.0 < p.1 < |s.bodies|
    requires AllDamped(s.bodies) && !s.raised
    ensures if AllLossless(s, ps) then TotalEnergy(Pass(s, ps).bodies) == TotalEnergy(s.bodies)
            else TotalEnergy(Pass(s, ps).bodies) < TotalEnergy(s.bodies)
    ensures AllElastic(s.bodies) ==> AllLossless(s, ps) && TotalMomentum(Pass(s, ps).bodies) == TotalMomentum(s.bodies)
    decreases |ps|
  {
    hide AllDamped, AllElastic, TotalEnergy, TotalMomentum, Visit, Spares;
    if ps != [] {
      VisitTotals(s, ps[0]);
      PassTotals(Visit(s, ps[0]), ps[1..]);
    }
  }

  /** With positive masses and elasticities in [0, 1] a pass completes and never gains kinetic
      energy: it keeps the total exactly when each body it resolves is perfectly elastic or left
      at rest, and loses some otherwise. Between perfectly elastic bodies it keeps total energy
      and total momentum. */
  lemma CollisionPassConserves(bodies: seq<Body>)
    requires AllDamped(bodies)
    ensures !CollisionPass(bodies).raised
    ensures if AllLossless(Sweep(bodies, [], false), Pairs(|bodies|)) then
              TotalEnergy(CollisionPass(bodies).bodies) == TotalEnergy(bodies)
            else
              TotalEnergy(CollisionPass(bodies).bodies) < TotalEnergy(bodies)
    ensures AllElastic(bodies) ==>
      TotalEnergy(CollisionPass(bodies).bodies) == TotalEnergy(bodies) &&
      TotalMomentum(CollisionPass(bodies).bodies) == TotalMomentum(bodies)
  {
    var s := Sweep(bodies, [], false);
    PassTotals(s, Pairs(|bodies|));
    PassRecords(bodies, s, Pairs(|bodies|));
    hide AllElastic, AllLossless, TotalEnergy, TotalMomentum;
    forall p | p in Pairs(|bodies|) ensures !Fatal(bodies, p) {
      assert Damped(bodies[p.0]) && Damped(bodies[p.1]);
    }
  }

  /** Which pairs a pass records is decided by the bodies before it: resolving a pair never
      makes or breaks a later one. */
  lemma CollisionsAreTheTouchingPairs(bodies: seq<Body>)
    ensures var after := CollisionPass(bodies);
      SameGeometry(bodies, after.bodies) && PairsAscend(after.collisions) &&
      (after.raised <==> exists p <- Pairs(|bodies|) :: Fatal(bodies, p)) &&
      (forall p <- after.collisions :: p.0 < p.1 < |bodies| && Colliding(bodies[p.0], bodies[p.1])) &&
      (!after.raised ==>
        forall i: nat, j: nat :: i < j < |bodies| && Colliding(bodies[i], bodies[j]) ==> (i, j) in after.collisions)
  {
    var ps := Pairs(|bodies|);
    PassRecords(bodies, Sweep(bodies, [], false), ps);
    PairsAreAll(|bodies|, 0, 1);
    RecordedIsTouching(bodies, ps);
    RecordedAscends(bodies, ps);
  }

  lemma {:induction false} RecordedIsTouching(bodies: seq<Body>, ps: seq<(nat, nat)>)
    requires forall p <- ps :: p.0 < p.1 < |bodies|
    ensures forall p <- Recorded(bodies, ps) :: p in ps && Colliding(bodies[p.0], bodies[p.1])
    ensures (forall p <- ps :: !Fatal(bodies, p)) ==>
      forall p <- ps :: Colliding(bodies[p.0], bodies[p.1]) ==> p in Recorded(bodies, ps)
    decreases |ps|
  {
    hide Colliding, Fatal;
    if ps != [] {
      RecordedIsTouching(bodies, ps[1..]);
    }
  }

  lemma {:induction false} RecordedAscends(bodies: seq<Body>, ps: seq<(nat, nat)>)
    requires forall p <- ps :: p.0 < p.1 < |bodies|
    requires PairsAscend(ps)
    ensures PairsAscend(Recorded(bodies, ps))
    decreases |ps|
  {
    hide Colliding, Fatal, PairBefore;
    if ps != [] {
      var rest := ps[1..];
      RecordedAscends(bodies, rest);
      RecordedIsTouching(bodies, rest);
      assert forall q <- Recorded(bodies, rest) :: PairBefore(ps[0], q);
    }
  }

  // ----- The engine -----

  class PhysicsObject {
    const objectId: string
    var mass: real
    var position: Vector3
    var velocity: Vector3
    var elasticity: real
    var radius: real

    constructor (objectId: string, mass: real, position: Vector3, velocity: Vector3, elasticity: real, radius: real)
      ensures this.objectId == objectId
      ensures AsBody() == Body(mass, position, velocity, elasticity, radius)
    {
      this.objectId := objectId;
      this.mass, this.position, this.velocity := mass, position, velocity;
      this.elasticity, this.radius := elasticity, radius;
    }

    ghost function AsBody(): Body
      reads this
    {
      Body(mass, position, velocity, elasticity, radius)
    }

    method CalculateKineticEnergy() returns (energy: real)
      ensures energy == KineticEnergy(AsBody())
      ensures energy == 0.5 * mass * (velocity.x * velocity.x + velocity.y * velocity.y + velocity.z * velocity.z)
    {
      var squared := velocity.Dot(velocity);
      energy := 0.5 * mass * squared;
    }
  }

  ghost function BodiesOf(objects: seq<PhysicsObject>): (bodies: seq<Body>)
    reads objects
    ensures |bodies| == |objects|
    ensures forall i :: 0 <= i < |objects| ==> bodies[i] == objects[i].AsBody()
  {
    seq(|objects|, i requires 0 <= i < |objects| reads objects => objects[i].AsBody())
  }

  /** Positions replaced by the identifiers the engine records. */
  function Named(objects: seq<PhysicsObject>, ps: seq<(nat, nat)>): (names: seq<(string, string)>)
    requires forall p <- ps :: p.0 < |objects| && p.1 < |objects|
    ensures |names| == |ps|
    ensures forall k :: 0 <= k < |ps| ==> names[k] == (objects[ps[k].0].objectId, objects[ps[k].1].objectId)
  {
    if ps == [] then []
    else [(objects[ps[0].0].objectId, objects[ps[0].1].objectId)] + Named(objects, ps[1..])
  }

  class PhysicsEngine {
    /** The values of the dictionary of objects, in insertion order. */
    var objects: seq<PhysicsObject>
    var collisions: seq<(string, string)>

    ghost predicate Valid()
      reads this`objects
    {
      forall i, j :: 0 <= i < j < |objects| ==> objects[i].objectId != objects[j].objectId
    }

    /** The objects have the bodies of `s`, and the recorded identifiers name its collisions. */
    ghost predicate Shows(s: Sweep)
      reads this, objects
    {
      s.bodies == BodiesOf(objects) &&
      (forall p <- s.collisions :: p.0 < p.1 < |objects|) &&
      collisions == Named(objects, s.collisions)
    }

    constructor (objects: seq<PhysicsObject>)
      requires forall i, j :: 0 <= i < j < |objects| ==> objects[i].objectId != objects[j].objectId
      ensures Valid() && this.objects == objects && collisions == []
    {
      this.objects, collisions := objects, [];
    }

    method ResolveCollision(first: PhysicsObject, second: PhysicsObject) returns (raised: bool)
      requires first != second
      modifies first`velocity, second`velocity
      ensures raised <==> first.mass + second.mass == 0.0
      ensures raised ==> first.AsBody() == old(first.AsBody()) && second.AsBody() == old(second.AsBody())
      ensures !raised ==> (first.AsBody(), second.AsBody()) == Resolved(old(first.AsBody()), old(second.AsBody()))
    {
      hide Vector3.Times, Vector3.Plus;
      var m1, m2, v1, v2 := first.mass, second.mass, first.velocity, second.velocity;
      if m1 + m2 == 0.0 {
        return true;
      }
      assert m2 + m1 == m1 + m2;
      var new1 := v1.Times(m1 - m2).Plus(v2.Times(2.0).Times(m2)).Times(1.0 / (m1 + m2));
      var new2 := v2.Times(m2 - m1).Plus(v1.Times(2.0).Times(m1)).Times(1.0 / (m1 + m2));
      first.velocity := new1;
      second.velocity := new2;
      first.velocity := first.velocity.Times(first.elasticity);
      second.velocity := second.velocity.Times(second.elasticity);
      return false;
    }

    method CheckCollision(first: PhysicsObject, second: PhysicsObject) returns (touching: bool)
      ensures touching == Colliding(first.AsBody(), second.AsBody())
    {
      var dx, dy, dz := second.position.x - first.position.x, second.position.y - first.position.y, second.position.z - first.position.z;
      var reach := first.radius + second.radius;
      touching := reach > 0.0 && dx * dx + dy * dy + dz * dz < reach * reach;
    }

    /** One turn of the inner loop. */
    method VisitPair(first: PhysicsObject, second: PhysicsObject, ghost i: nat, ghost j: nat, ghost s: Sweep)
      returns (raised: bool, ghost t: Sweep)
      requires Valid() && i < j < |objects| && objects[i] == first && objects[j] == second
      requires Shows(s) && !s.raised
      modifies this`collisions, first`velocity, second`velocity
      ensures |s.bodies| == |objects| && t == Visit(s, (i, j)) && Shows(t) && raised == t.raised
    {
      hide Colliding, Resolved, Named;
      t := Visit(s, (i, j));
      assert forall k :: 0 <= k < |objects| && k != i && k != j ==> objects[k] != first && objects[k] != second;
      raised := false;
      var touching := CheckCollision(first, second);
      if touching {
        assert t.collisions == s.collisions + [(i, j)];
        NamedAppend(objects, s.collisions, (i, j));
        collisions := collisions + [(first.objectId, second.objectId)];
        raised := ResolveCollision(first, second);
      }
      forall k | 0 <= k < |objects| ensures BodiesOf(objects)[k] == t.bodies[k] {
      }
      assert BodiesOf(objects) == t.bodies;
    }

    lemma StartShows()
      requires collisions == []
      ensures Shows(Sweep(BodiesOf(objects), [], false))
    {
    }

    /** Finds and resolves the collisions of all pairs, in order. */
    method DetectCollisions() returns (raised: bool)
      requires Valid()
      modifies this`collisions, objects
      ensures Valid()
      ensures Shows(CollisionPass(old(BodiesOf(objects))))
      ensures raised == CollisionPass(old(BodiesOf(objects))).raised
    {
      hide Valid, Shows, Visit, CollisionPass, BodiesOf, Pass, PairsFrom;
      collisions := [];
      var n := |objects|;
      ghost var s := Sweep(BodiesOf(objects), [], false);
      ghost var whole := CollisionPass(BodiesOf(objects));
      PassStarts(BodiesOf(objects));
      StartShows();
      var i := 0;
      while i < n
        invariant 0 <= i
        invariant Shows(s) && !s.raised && |s.bodies| == n
        invariant Pass(s, PairsFrom(n, i, i + 1)) == whole
      {
        var j := i + 1;
        while j < n
          invariant i < j
          invariant Shows(s) && !s.raised && |s.bodies| == n
          invariant Pass(s, PairsFrom(n, i, j)) == whole
        {
          PassUnfolds(s, i, j);
          raised, s := VisitPair(objects[i], objects[j], i, j, s);
          if raised {
            RaisedStays(s, PairsFrom(n, i, j + 1));
            return;
          }
          j := j + 1;
        }
        RowEnds(n, i, j);
        i := i + 1;
      }
      PassEnds(s, i);
      raised := false;
    }
  }

  lemma PassStarts(bodies: seq<Body>)
    ensures CollisionPass(bodies) == Pass(Sweep(bodies, [], false), PairsFrom(|bodies|, 0, 1))
  {
  }

  lemma PassUnfolds(s: Sweep, i: nat, j: nat)
    requires i < j < |s.bodies|
    ensures Pass(s, PairsFrom(|s.bodies|, i, j)) == Pass(Visit(s, (i, j)), PairsFrom(|s.bodies|, i, j + 1))
  {
    hide Visit;
    var ps := PairsFrom(|s.bodies|, i, j);
    assert ps[0] == (i, j) && ps[1..] == PairsFrom(|s.bodies|, i, j + 1);
  }

  lemma RowEnds(n: nat, i: nat, j: nat)
    requires i < n <= j
    ensures PairsFrom(n, i, j) == PairsFrom(n, i + 1, i + 2)
  {
  }

  lemma PassEnds(s: Sweep, i: nat)
    requires |s.bodies| <= i
    ensures Pass(s, PairsFrom(|s.bodies|, i, i + 1)) == s
  {
  }

  lemma {:induction false} NamedAppend(objects: seq<PhysicsObject>, ps: seq<(nat, nat)>, p: (nat, nat))
    requires forall q: (nat, nat) :: q in ps + [p] ==> q.0 < |objects| && q.1 < |objects|
    ensures (forall q <- ps :: q.0 < |objects| && q.1 < |objects|) && p.0 < |objects| && p.1 < |objects|
    ensures Named(objects, ps + [p]) == Named(objects, ps) + [(objects[p.0].objectId, objects[p.1].objectId)]
  {
    assert p in ps + [p];
    assert forall q <- ps :: q in ps + [p];
  }
}
