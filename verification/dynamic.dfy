/** The kinematic integrator (`vi::gl::dynamic` and `updateDynamicSprite`):
    velocities and accelerations for the six transform channels of a sprite
    (x, y, z, rotation, scale x, scale y), integrated once per update over the
    game time elapsed since the previous update. */
module Dynamics {
  import opened Sprites

  datatype Dynamic = Dynamic(
    velx: real, vely: real, velz: real,
    accx: real, accy: real, accz: real,
    velrot: real, accrot: real,
    velsx: real, velsy: real,
    accsx: real, accsy: real,
    lastUpdate: real)

  /** `init`: everything at rest, stamped with the current game time. */
  function Init(now: real): (d: Dynamic)
    ensures d.lastUpdate == now
    ensures d.velx == 0.0 && d.vely == 0.0 && d.velz == 0.0 && d.velrot == 0.0
    ensures d.velsx == 0.0 && d.velsy == 0.0
    ensures d.accx == 0.0 && d.accy == 0.0 && d.accz == 0.0 && d.accrot == 0.0
    ensures d.accsx == 0.0 && d.accsy == 0.0
  {
    Dynamic(0.0, 0.0, 0.0, 0.0, 0.0, 0.0, 0.0, 0.0, 0.0, 0.0, 0.0, 0.0, now)
  }

  /** One channel of one update, in the order the code writes it: the
      velocity takes the acceleration first and the position then moves by
      the NEW velocity. Result is (position, velocity). */
  function Step(pos: real, vel: real, acc: real, dt: real): (r: (real, real))
    ensures r.1 - vel == acc * dt
    ensures r.0 == pos + vel * dt + acc * dt * dt
  {
    var v := vel + acc * dt;
    (pos + v * dt, v)
  }

  /** `update`: integrates all six channels over `dt = now - lastUpdate` and
      restamps. Only the six transform fields of the sprite change. */
  function Update(d: Dynamic, s: Sprite, now: real): (res: (Dynamic, Sprite))
    ensures var dt := now - d.lastUpdate;
      && res.0.lastUpdate == now
      && res.1.x == s.x + d.velx * dt + d.accx * dt * dt
      && res.1.y == s.y + d.vely * dt + d.accy * dt * dt
      && res.1.z == s.z + d.velz * dt + d.accz * dt * dt
      && res.1.rot == s.rot + d.velrot * dt + d.accrot * dt * dt
      && res.1.sx == s.sx + d.velsx * dt + d.accsx * dt * dt
      && res.1.sy == s.sy + d.velsy * dt + d.accsy * dt * dt
      && res.0.velx == d.velx + d.accx * dt && res.0.vely == d.vely + d.accy * dt
      && res.0.velz == d.velz + d.accz * dt && res.0.velrot == d.velrot + d.accrot * dt
      && res.0.velsx == d.velsx + d.accsx * dt && res.0.velsy == d.velsy + d.accsy * dt
    ensures res.1 == s.(x := res.1.x, y := res.1.y, z := res.1.z, rot := res.1.rot,
                        sx := res.1.sx, sy := res.1.sy)
    ensures res.0 == d.(velx := res.0.velx, vely := res.0.vely, velz := res.0.velz,
                        velrot := res.0.velrot, velsx := res.0.velsx, velsy := res.0.velsy,
                        lastUpdate := now)
  {
    var dt := now - d.lastUpdate;
    var (x, vx) := Step(s.x, d.velx, d.accx, dt);
    var (y, vy) := Step(s.y, d.vely, d.accy, dt);
    var (z, vz) := Step(s.z, d.velz, d.accz, dt);
    var (rot, vr) := Step(s.rot, d.velrot, d.accrot, dt);
    var (sx, vsx) := Step(s.sx, d.velsx, d.accsx, dt);
    var (sy, vsy) := Step(s.sy, d.velsy, d.accsy, dt);
    (d.(velx := vx, vely := vy, velz := vz, velrot := vr, velsx := vsx, velsy := vsy,
        lastUpdate := now),
     s.(x := x, y := y, z := z, rot := rot, sx := sx, sy := sy))
  }

  /** `n` updates, each `dt` after the previous one. */
  function Run(d: Dynamic, s: Sprite, dt: real, n: nat): (res: (Dynamic, Sprite))
    decreases n
  {
    if n == 0 then (d, s)
    else
      var (d1, s1) := Update(d, s, d.lastUpdate + dt);
      Run(d1, s1, dt, n - 1)
  }

  /** A position moved `n` times by `v * dt`, one step at a time. */
  function Glide(p: real, v: real, dt: real, n: nat): real
    decreases n
  {
    if n == 0 then p else Glide(p + v * dt, v, dt, n - 1)
  }

  /** Stepping `n` times by `v * dt` is one move by `n * v * dt`. */
  lemma {:induction false} GlideClosedForm(p: real, v: real, dt: real, n: nat)
    ensures Glide(p, v, dt, n) == p + (n as real) * v * dt
    decreases n
  {
    if n > 0 {
      GlideClosedForm(p + v * dt, v, dt, n - 1);
      var m := (n - 1) as real;
      assert (n as real) == m + 1.0;
      OneMore(m, v, dt);
    }
  }

  /** One update without acceleration: every channel moves by `v * dt`. */
  function Coast(d: Dynamic, s: Sprite, dt: real): (Dynamic, Sprite)
  {
    (d.(lastUpdate := d.lastUpdate + dt),
     s.(x := s.x + d.velx * dt, y := s.y + d.vely * dt, z := s.z + d.velz * dt,
        rot := s.rot + d.velrot * dt, sx := s.sx + d.velsx * dt, sy := s.sy + d.velsy * dt))
  }

  /** The first of `n` updates without acceleration is a coast. */
  lemma RunCoasts(d: Dynamic, s: Sprite, dt: real, n: nat)
    requires d.accx == 0.0 && d.accy == 0.0 && d.accz == 0.0
    requires d.accrot == 0.0 && d.accsx == 0.0 && d.accsy == 0.0
    requires n > 0
    ensures Run(d, s, dt, n) == Run(Coast(d, s, dt).0, Coast(d, s, dt).1, dt, n - 1)
  {
    UpdateWithoutAcceleration(d, s, dt);
  }

  lemma GlideUnfold(p: real, v: real, dt: real, n: nat)
    requires n > 0
    ensures Glide(p, v, dt, n) == Glide(p + v * dt, v, dt, n - 1)
  {
  }

  /** Without acceleration, the clock of a run of updates glides at rate 1
      and nothing else in the integrator changes. */
  lemma {:induction false} RunClockGlides(d: Dynamic, s: Sprite, dt: real, n: nat)
    requires d.accx == 0.0 && d.accy == 0.0 && d.accz == 0.0
    requires d.accrot == 0.0 && d.accsx == 0.0 && d.accsy == 0.0
    ensures Run(d, s, dt, n).0 == d.(lastUpdate := Glide(d.lastUpdate, 1.0, dt, n))
    decreases n
  {
    if n > 0 {
      var (d1, s1) := Coast(d, s, dt);
      RunCoasts(d, s, dt, n);
      RunClockGlides(d1, s1, dt, n - 1);
      GlideUnfold(d.lastUpdate, 1.0, dt, n);
      assert d.lastUpdate + 1.0 * dt == d1.lastUpdate;
    }
  }

  /** The six transform channels an update integrates. */
  datatype Channel = X | Y | Z | Rot | ScaleX | ScaleY

  function Pos(s: Sprite, c: Channel): real
  {
    match c
    case X => s.x
    case Y => s.y
    case Z => s.z
    case Rot => s.rot
    case ScaleX => s.sx
    case ScaleY => s.sy
  }

  function Vel(d: Dynamic, c: Channel): real
  {
    match c
    case X => d.velx
    case Y => d.vely
    case Z => d.velz
    case Rot => d.velrot
    case ScaleX => d.velsx
    case ScaleY => d.velsy
  }

  /** With no acceleration, `n` updates of a fixed step move each channel by
      exactly `n * v * dt`. */
  lemma ConstantVelocity(d: Dynamic, s: Sprite, dt: real, n: nat, c: Channel)
    requires d.accx == 0.0 && d.accy == 0.0 && d.accz == 0.0
    requires d.accrot == 0.0 && d.accsx == 0.0 && d.accsy == 0.0
    ensures Pos(Run(d, s, dt, n).1, c) == Pos(s, c) + (n as real) * Vel(d, c) * dt
  {
    RunChannelGlides(d, s, dt, n, c);
    GlideClosedForm(Pos(s, c), Vel(d, c), dt, n);
  }

  /** Without acceleration, a run of updates glides every channel. */
  lemma {:induction false} RunChannelGlides(d: Dynamic, s: Sprite, dt: real, n: nat, c: Channel)
    requires d.accx == 0.0 && d.accy == 0.0 && d.accz == 0.0
    requires d.accrot == 0.0 && d.accsx == 0.0 && d.accsy == 0.0
    ensures Pos(Run(d, s, dt, n).1, c) == Glide(Pos(s, c), Vel(d, c), dt, n)
    decreases n
  {
    if n > 0 {
      var (d1, s1) := Coast(d, s, dt);
      RunCoasts(d, s, dt, n);
      RunChannelGlides(d1, s1, dt, n - 1, c);
      CoastChannel(d, s, dt, c);
      GlideUnfold(Pos(s, c), Vel(d, c), dt, n);
    }
  }

  /** A coast moves a channel by its velocity and keeps the velocity. */
  lemma CoastChannel(d: Dynamic, s: Sprite, dt: real, c: Channel)
    ensures Pos(Coast(d, s, dt).1, c) == Pos(s, c) + Vel(d, c) * dt
    ensures Vel(Coast(d, s, dt).0, c) == Vel(d, c)
  {
  }

  /** ... and leave every velocity where it was, the clock having advanced by
      `n * dt`. */
  lemma ConstantVelocityClock(d: Dynamic, s: Sprite, dt: real, n: nat)
    requires d.accx == 0.0 && d.accy == 0.0 && d.accz == 0.0
    requires d.accrot == 0.0 && d.accsx == 0.0 && d.accsy == 0.0
    ensures Run(d, s, dt, n).0 == d.(lastUpdate := d.lastUpdate + (n as real) * dt)
  {
    RunClockGlides(d, s, dt, n);
    GlideClosedForm(d.lastUpdate, 1.0, dt, n);
  }

  /** Without acceleration an update is a plain translation by `v * dt`. */
  lemma UpdateWithoutAcceleration(d: Dynamic, s: Sprite, dt: real)
    requires d.accx == 0.0 && d.accy == 0.0 && d.accz == 0.0
    requires d.accrot == 0.0 && d.accsx == 0.0 && d.accsy == 0.0
    ensures Update(d, s, d.lastUpdate + dt) ==
        (d.(lastUpdate := d.lastUpdate + dt),
         s.(x := s.x + d.velx * dt, y := s.y + d.vely * dt, z := s.z + d.velz * dt,
            rot := s.rot + d.velrot * dt, sx := s.sx + d.velsx * dt, sy := s.sy + d.velsy * dt))
  {
    var now := d.lastUpdate + dt;
    assert now - d.lastUpdate == dt;
    var r := Update(d, s, now);
    assert r.1.x == s.x + d.velx * dt && r.1.y == s.y + d.vely * dt && r.1.z == s.z + d.velz * dt;
    assert r.1.rot == s.rot + d.velrot * dt;
    assert r.1.sx == s.sx + d.velsx * dt && r.1.sy == s.sy + d.velsy * dt;
    assert r.0 == d.(lastUpdate := now);
  }

  lemma OneMore(m: real, v: real, dt: real)
    ensures (m + 1.0) * v * dt == m * v * dt + v * dt
  {
  }

  /** The position-first order (move by the old velocity, then accelerate)
      lands `acc * dt * dt` short of the order the code uses, so the two
      agree exactly when that term vanishes. */
  lemma OrderMatters(pos: real, vel: real, acc: real, dt: real)
    ensures var oldVelocityPos := pos + vel * dt;
            Step(pos, vel, acc, dt).0 - oldVelocityPos == acc * dt * dt
  {
  }
}
