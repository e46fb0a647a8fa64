/** The law of a collision, said of what goes in and what comes out, and what a whole pass is by it. */
module Collisions {
  import opened Prelude
  import opened Physics

  /** Along one axis the undamped velocities keep momentum and reverse the relative velocity. */
  ghost predicate Rebounds(m1: real, v1: real, m2: real, v2: real, u: real, w: real) {
    m1 * u + m2 * w == m1 * v1 + m2 * v2 && u - w == -(v1 - v2)
  }

  ghost predicate Rebound(a: Body, b: Body, u: Vector3, w: Vector3) {
    Rebounds(a.mass, a.velocity.x, b.mass, b.velocity.x, u.x, w.x) &&
    Rebounds(a.mass, a.velocity.y, b.mass, b.velocity.y, u.y, w.y) &&
    Rebounds(a.mass, a.velocity.z, b.mass, b.velocity.z, u.z, w.z)
  }

  ghost predicate LeavesWith(a: Body, c: Body, u: Vector3) {
    c == Body(a.mass, a.position, Vector3(a.elasticity * u.x, a.elasticity * u.y, a.elasticity * u.z), a.elasticity, a.radius)
  }

  lemma AxisRebounds(m1: real, m2: real, v1: real, v2: real)
    requires m1 + m2 != 0.0
    ensures Rebounds(m1, v1, m2, v2, ExchangedAxis(m1, m2, v1, v2), ExchangedAxis(m2, m1, v2, v1))
  {
    hide ExchangedAxis;
    AxisOfExchange(m1, m2, v1, v2);
    var k := AxisExchange(m1, m2, v1, v2);
    assert 2.0 * m2 * k + 2.0 * m1 * k == 2.0 * (k * (m1 + m2));
  }

  /** The equations leave one choice only. */
  lemma ReboundIsUnique(m1: real, v1: real, m2: real, v2: real, u: real, w: real, u': real, w': real)
    requires m1 + m2 != 0.0 && Rebounds(m1, v1, m2, v2, u, w) && Rebounds(m1, v1, m2, v2, u', w')
    ensures u == u' && w == w'
  {
    var d := u - u';
    assert w - w' == d;
    assert m1 * d + m2 * d == 0.0 by {
      assert m1 * u - m1 * u' == m1 * d && m2 * w - m2 * w' == m2 * d;
    }
    assert d * (m1 + m2) == 0.0;
    CancelFactor(0.0, d, m1 + m2);
  }

  /** Colliding bodies rebound keeping momentum and reversing their relative velocity, and each
      leaves with its elasticity times that, nothing else of it changed. */
  lemma CollisionRebounds(a: Body, b: Body) returns (u: Vector3, w: Vector3)
    requires a.mass + b.mass != 0.0
    ensures Rebound(a, b, u, w)
    ensures LeavesWith(a, Resolved(a, b).0, u) && LeavesWith(b, Resolved(a, b).1, w)
  {
    hide Exchanged, LeavesWith, Rebound, Resolved;
    u := Exchanged(a.mass, b.mass, a.velocity, b.velocity);
    w := Exchanged(b.mass, a.mass, b.velocity, a.velocity);
    ExchangeRebounds(a, b);
    ResolvedLeaves(a, b);
  }

  lemma ExchangeRebounds(a: Body, b: Body)
    requires a.mass + b.mass != 0.0
    ensures Rebound(a, b, Exchanged(a.mass, b.mass, a.velocity, b.velocity), Exchanged(b.mass, a.mass, b.velocity, a.velocity))
  {
    var m1, m2, v1, v2 := a.mass, b.mass, a.velocity, b.velocity;
    ExchangedAxes(m1, m2, v1, v2);
    ExchangedAxes(m2, m1, v2, v1);
    AxisRebounds(m1, m2, v1.x, v2.x);
    AxisRebounds(m1, m2, v1.y, v2.y);
    AxisRebounds(m1, m2, v1.z, v2.z);
    hide Exchanged, ExchangedAxis, Rebounds;
  }

  lemma ResolvedLeaves(a: Body, b: Body)
    requires a.mass + b.mass != 0.0
    ensures LeavesWith(a, Resolved(a, b).0, Exchanged(a.mass, b.mass, a.velocity, b.velocity))
    ensures LeavesWith(b, Resolved(a, b).1, Exchanged(b.mass, a.mass, b.velocity, a.velocity))
  {
    TimesByAxis(Exchanged(a.mass, b.mass, a.velocity, b.velocity), a.elasticity);
    TimesByAxis(Exchanged(b.mass, a.mass, b.velocity, a.velocity), b.elasticity);
    hide Exchanged, Vector3.Times;
  }

  lemma TimesByAxis(v: Vector3, e: real)
    ensures v.Times(e) == Vector3(e * v.x, e * v.y, e * v.z)
  {
  }

  ghost function SquaredSpeed(v: Vector3): real {
    v.x * v.x + v.y * v.y + v.z * v.z
  }

  lemma EnergyLeft(a: Body, c: Body, u: Vector3)
    requires LeavesWith(a, c, u)
    ensures 2.0 * KineticEnergy(c) == a.elasticity * a.elasticity * (a.mass * SquaredSpeed(u))
  {
    var e := a.elasticity;
    Scaled(e, u.x);
    Scaled(e, u.y);
    Scaled(e, u.z);
    var q := c.velocity.Dot(c.velocity);
    assert q == e * e * SquaredSpeed(u);
    hide SquaredSpeed, Vector3.Dot;
    assert 2.0 * KineticEnergy(c) == a.mass * q;
    Regroup(a.mass, e * e, SquaredSpeed(u));
  }

  lemma Scaled(e: real, x: real)
    ensures (e * x) * (e * x) == e * e * (x * x)
  {
  }

  lemma Regroup(m: real, f: real, q: real)
    ensures m * (f * q) == f * (m * q)
  {
  }

  /** The kinetic energy a collision leaves: of each undamped velocity, its elasticity squared; the
      undamped velocities together have the energy there was. */
  lemma CollisionLeavesEnergy(a: Body, b: Body) returns (u: Vector3, w: Vector3)
    requires a.mass + b.mass != 0.0
    ensures Rebound(a, b, u, w)
    ensures a.mass * SquaredSpeed(u) + b.mass * SquaredSpeed(w) == a.mass * SquaredSpeed(a.velocity) + b.mass * SquaredSpeed(b.velocity)
    ensures var (c, d) := Resolved(a, b);
      2.0 * (KineticEnergy(c) + KineticEnergy(d)) ==
      a.elasticity * a.elasticity * (a.mass * SquaredSpeed(u)) + b.elasticity * b.elasticity * (b.mass * SquaredSpeed(w))
  {
    u, w := CollisionRebounds(a, b);
    EnergyLeft(a, Resolved(a, b).0, u);
    EnergyLeft(b, Resolved(a, b).1, w);
    hide KineticEnergy, Resolved, SquaredSpeed;
    ReboundKeepsEnergy(a, b, u, w);
  }

  lemma ReboundKeepsEnergy(a: Body, b: Body, u: Vector3, w: Vector3)
    requires Rebound(a, b, u, w)
    ensures a.mass * SquaredSpeed(u) + b.mass * SquaredSpeed(w) == a.mass * SquaredSpeed(a.velocity) + b.mass * SquaredSpeed(b.velocity)
  {
    hide Rebounds;
    AxisKeepsEnergy(a.mass, a.velocity.x, b.mass, b.velocity.x, u.x, w.x);
    AxisKeepsEnergy(a.mass, a.velocity.y, b.mass, b.velocity.y, u.y, w.y);
    AxisKeepsEnergy(a.mass, a.velocity.z, b.mass, b.velocity.z, u.z, w.z);
    SpeedByAxis(a.mass, u);
    SpeedByAxis(b.mass, w);
    SpeedByAxis(a.mass, a.velocity);
    SpeedByAxis(b.mass, b.velocity);
    hide SquaredSpeed;
  }

  lemma SpeedByAxis(m: real, v: Vector3)
    ensures m * SquaredSpeed(v) == m * (v.x * v.x) + m * (v.y * v.y) + m * (v.z * v.z)
  {
  }

  /** m1(u - v1)(u + v1) and m2(v2 - w)(v2 + w) are equal, factor by factor. */
  lemma AxisKeepsEnergy(m1: real, v1: real, m2: real, v2: real, u: real, w: real)
    requires Rebounds(m1, v1, m2, v2, u, w)
    ensures m1 * (u * u) + m2 * (w * w) == m1 * (v1 * v1) + m2 * (v2 * v2)
  {
    var s, p := u + v1, m1 * (u - v1);
    assert s == w + v2;
    assert p == m2 * (v2 - w) by {
      assert m1 * (u - v1) == m1 * u - m1 * v1 && m2 * (v2 - w) == m2 * v2 - m2 * w;
    }
    Difference(m1, u, v1);
    Difference(m2, v2, w);
  }

  lemma Difference(m: real, x: real, y: real)
    ensures m * (x * x) - m * (y * y) == (m * (x - y)) * (x + y)
  {
  }

  ghost predicate ScaledRebound(e: real, m1: real, v1: real, m2: real, v2: real, c: real, d: real) {
    m1 * c + m2 * d == e * (m1 * v1 + m2 * v2) && c - d == -e * (v1 - v2)
  }

  lemma AxisScales(e: real, m1: real, v1: real, m2: real, v2: real, u: real, w: real, c: real, d: real)
    requires Rebounds(m1, v1, m2, v2, u, w) && c == e * u && d == e * w
    ensures ScaledRebound(e, m1, v1, m2, v2, c, d)
  {
    assert m1 * (e * u) + m2 * (e * w) == e * (m1 * u + m2 * w);
    assert e * u - e * w == e * (u - w);
  }

  lemma LeavesScaled(a: Body, c: Body, u: Vector3, e: real)
    requires LeavesWith(a, c, u) && a.elasticity == e
    ensures c.velocity == Vector3(e * u.x, e * u.y, e * u.z)
  {
  }

  /** Bodies of one elasticity leave with their momentum and their reversed relative velocity both
      scaled by it. */
  lemma EqualElasticitiesScale(a: Body, b: Body)
    requires a.mass + b.mass != 0.0 && a.elasticity == b.elasticity
    ensures var v, w, c, d := a.velocity, b.velocity, Resolved(a, b).0.velocity, Resolved(a, b).1.velocity;
      ScaledRebound(a.elasticity, a.mass, v.x, b.mass, w.x, c.x, d.x) &&
      ScaledRebound(a.elasticity, a.mass, v.y, b.mass, w.y, c.y, d.y) &&
      ScaledRebound(a.elasticity, a.mass, v.z, b.mass, w.z, c.z, d.z)
  {
    hide Rebounds, ScaledRebound, Resolved, LeavesWith;
    var u, w := CollisionRebounds(a, b);
    var e, c, d := a.elasticity, Resolved(a, b).0.velocity, Resolved(a, b).1.velocity;
    LeavesScaled(a, Resolved(a, b).0, u, e);
    LeavesScaled(b, Resolved(a, b).1, w, e);
    AxisScales(e, a.mass, a.velocity.x, b.mass, b.velocity.x, u.x, w.x, c.x, d.x);
    AxisScales(e, a.mass, a.velocity.y, b.mass, b.velocity.y, u.y, w.y, c.y, d.y);
    AxisScales(e, a.mass, a.velocity.z, b.mass, b.velocity.z, u.z, w.z, c.z, d.z);
  }

  // ----- A whole pass -----

  /** Two of the bodies have collided and the others are as they were. */
  ghost predicate Collide(start: seq<Body>, end: seq<Body>, p: (nat, nat)) {
    p.0 < p.1 < |start| == |end| &&
    (exists u, w :: Rebound(start[p.0], start[p.1], u, w) && LeavesWith(start[p.0], end[p.0], u) && LeavesWith(start[p.1], end[p.1], w)) &&
    forall k :: 0 <= k < |start| && k != p.0 && k != p.1 ==> end[k] == start[k]
  }

  /** The collisions of the pairs, one after the other, lead from some bodies to others. */
  ghost predicate Becomes(start: seq<Body>, end: seq<Body>, ps: seq<(nat, nat)>)
    decreases |ps|
  {
    if ps == [] then start == end else exists mid :: Collide(start, mid, ps[0]) && Becomes(mid, end, ps[1..])
  }

  lemma VisitCollides(s: Sweep, p: (nat, nat))
    requires p.0 < p.1 < |s.bodies| && !s.raised
    ensures var t := Visit(s, p);
      if !Colliding(s.bodies[p.0], s.bodies[p.1]) then t == s
      else
        t.collisions == s.collisions + [p] && t.raised == (s.bodies[p.0].mass + s.bodies[p.1].mass == 0.0) &&
        if t.raised then t.bodies == s.bodies else Collide(s.bodies, t.bodies, p)
  {
    hide Colliding, Rebound, LeavesWith, Resolved;
    var a, b := s.bodies[p.0], s.bodies[p.1];
    if a.mass + b.mass != 0.0 {
      var u, w := CollisionRebounds(a, b);
    }
  }

  lemma {:induction false} PassBecomes(s: Sweep, ps: seq<(nat, nat)>) returns (more: seq<(nat, nat)>)
    requires forall p <- ps :: p.0 < p.1 < |s.bodies|
    requires !s.raised
    ensures var t := Pass(s, ps);
      t.collisions == s.collisions + more && (t.raised ==> more != []) &&
      Becomes(s.bodies, t.bodies, if t.raised then more[..|more| - 1] else more)
    decreases |ps|
  {
    hide Visit, Collide, Colliding;
    more := [];
    if ps != [] {
      var p, next := ps[0], Visit(s, ps[0]);
      VisitCollides(s, p);
      if next.raised {
        RaisedStays(next, ps[1..]);
        more := [p];
      } else {
        var rest := PassBecomes(next, ps[1..]);
        if Colliding(s.bodies[p.0], s.bodies[p.1]) {
          more := [p] + rest;
          CutLast(p, rest);
        } else {
          more := rest;
        }
      }
    }
  }

  lemma CutLast(p: (nat, nat), rest: seq<(nat, nat)>)
    ensures ([p] + rest)[1..] == rest
    ensures rest != [] ==> ([p] + rest)[..|rest|][1..] == rest[..|rest| - 1]
  {
  }

  /** A pass is its collisions, each resolved once, in order, the last one not if it raised. */
  lemma PassResolvesItsCollisions(bodies: seq<Body>)
    ensures var after := CollisionPass(bodies);
      (after.raised ==> after.collisions != []) &&
      Becomes(bodies, after.bodies, if after.raised then after.collisions[..|after.collisions| - 1] else after.collisions)
  {
    hide Pass, Becomes;
    var more := PassBecomes(Sweep(bodies, [], false), Pairs(|bodies|));
    assert [] + more == more;
  }
}
