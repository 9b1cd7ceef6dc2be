/**
 The sprite classes of main.py (`Sprite`, `Ball`, `Arc`, `Particle`) as one
 immutable record with a per-kind part. Images, masks and drawing are not
 modelled; a sprite keeps the bounding circle its square image implies.
 Random choices made by the constructors arrive as arguments.
 */
module Sprites {
  import opened Angles
  import opened Reals
  import opened Results

  /** A 2D point or vector (pygame's `Vector2`), over exact reals. */
  datatype Vec = Vec(x: real, y: real)

  function Plus(a: Vec, b: Vec): Vec {
    Vec(a.x + b.x, a.y + b.y)
  }

  function Scale(a: Vec, k: real): Vec {
    Vec(a.x * k, a.y * k)
  }

  /** Squared length, so that no square root is needed. */
  function NormSq(a: Vec): real {
    a.x * a.x + a.y * a.y
  }

  /** Python truthiness of a `Vector2`: only the zero vector is falsy. */
  predicate Truthy(v: Vec) {
    v != Vec(0.0, 0.0)
  }

  /** An RGB colour. */
  datatype Color = Color(r: int, g: int, b: int)

  /** What distinguishes a ball, an arc and a particle. */
  datatype Kind =
    | Ball(velocity: Vec)
    | Arc(color: Color, angle: real, speed: real)
    | Particle(color: Color, alpha: int, velocity: Vec, gravity: Vec, lifetime: real)

  /** A sprite: the bounding circle (centre and radius), the liveness flag and the kind's own state. */
  datatype Sprite = Sprite(center: Vec, radius: real, alive: bool, kind: Kind)

  /** The `Exception` raised by `Sprite.__init__` for an image that is not square. */
  datatype ShapeError = NotSquare

  const BallRadius: real := 12.5
  /** Angular length of the interval excluded from a fracture, `pi / 6`. */
  const ArcDelta: real := Pi / 6.0
  const ArcSpeedMin: int := 150
  const ArcSpeedMax: int := 300
  const ParticleLifetime: real := 40.0
  /** The gravity a particle gets when none is given, `Vector2(0, 0.1)`. */
  const ParticleGravity: Vec := Vec(0.0, 0.1)

  /**
   `Sprite.__init__`: an image of `width` x `height` is accepted only when it
   is square, and the sprite's circle is then inscribed in it.
   */
  function NewSprite(center: Vec, width: real, height: real, kind: Kind): (res: Result<Sprite, ShapeError>)
    ensures res.Err? <==> width != height
    ensures res.Ok? ==>
              && res.value.alive
              && res.value.center == center
              && 2.0 * res.value.radius == width
              && res.value.kind == kind
  {
    if width != height then Err(NotSquare)
    else Ok(Sprite(center, width / 2.0, true, kind))
  }

  /** `Sprite.kill`: only the liveness flag changes. */
  function Kill(s: Sprite): (k: Sprite)
    ensures !k.alive
    ensures k.(alive := s.alive) == s
  {
    s.(alive := false)
  }

  // ---------------------------------------------------------------------
  // Ball

  /**
   `Ball.__init__`: the image is `2r` square, so the square check always
   passes; the ball starts at rest. (`pygame.Surface` also rejects a negative
   size; negative radii are not modelled.)
   */
  function NewBall(center: Vec, radius: real): (b: Sprite)
    ensures b.alive && b.center == center && b.radius == radius
    ensures b.kind == Ball(Vec(0.0, 0.0))
  {
    var res := NewSprite(center, 2.0 * radius, 2.0 * radius, Ball(Vec(0.0, 0.0)));
    res.value
  }

  /** `Ball.reset`: the ball is put back at `center` at rest; size and liveness are kept. */
  function ResetBall(b: Sprite, center: Vec): (r: Sprite)
    requires b.kind.Ball?
    ensures r.kind.Ball? && r.kind.velocity == Vec(0.0, 0.0)
    ensures r.center == center
    ensures r.radius == b.radius && r.alive == b.alive
  {
    b.(center := center, kind := Ball(Vec(0.0, 0.0)))
  }

  // ---------------------------------------------------------------------
  // Arc

  /** The random values `Arc.__init__` draws when an argument is missing or falsy. */
  datatype ArcDraws = ArcDraws(color: Color, sign: int, divisor: int, unit: real)

  /**
   Ranges of those values: `randint(50, 255)` per channel, `choice([1, -1])`,
   `randint(ARC_SPEED_MIN, ARC_SPEED_MAX)` and `random()`.
   */
  predicate ValidArcDraws(d: ArcDraws) {
    && 50 <= d.color.r <= 255 && 50 <= d.color.g <= 255 && 50 <= d.color.b <= 255
    && (d.sign == 1 || d.sign == -1)
    && ArcSpeedMin <= d.divisor <= ArcSpeedMax
    && 0.0 <= d.unit < 1.0
  }

  /** The speed an arc draws for itself, `choice([1, -1]) * pi / randint(150, 300)`. */
  function DrawnSpeed(d: ArcDraws): (s: real)
    requires ValidArcDraws(d)
    ensures s != 0.0
    ensures (s > 0.0) == (d.sign == 1)
  {
    d.sign as real * (Pi / d.divisor as real)
  }

  /** The angle an arc draws for itself, `random() * 2 * pi`, in [0, 2π). */
  function DrawnAngle(d: ArcDraws): (a: real)
    requires ValidArcDraws(d)
    ensures 0.0 <= a < TwoPi
  {
    Uniform(TwoPi, d.unit)
  }

  /** Python's `x if x else fallback` for an optional number: `None` and `0.0` are both falsy. */
  function OrIfFalsy(x: Option<real>, fallback: real): (r: real)
    ensures x.Some? && x.value != 0.0 ==> r == x.value
    ensures x.None? || x.value == 0.0 ==> r == fallback
    ensures fallback != 0.0 ==> r != 0.0
  {
    if x.Some? && x.value != 0.0 then x.value else fallback
  }


  /**
   `Arc.__init__`. A given colour is used as is; a missing one is drawn. A
   given speed or angle is used only when it is truthy (non-zero), otherwise
   the drawn one replaces it. The image is `2r` square, so the square check
   always passes. (`pygame.Surface` also rejects a negative size; negative
   radii are not modelled.)
   */
  function NewArc(center: Vec, radius: real, color: Option<Color>, angle: Option<real>, speed: Option<real>,
                  d: ArcDraws): (a: Sprite)
    requires ValidArcDraws(d)
    ensures a.alive && a.center == center && a.radius == radius
    ensures a.kind.Arc?
    ensures a.kind.color == (if color.Some? then color.value else d.color)
    ensures a.kind.speed == OrIfFalsy(speed, DrawnSpeed(d))
    ensures a.kind.angle == OrIfFalsy(angle, DrawnAngle(d))
    ensures a.kind.speed != 0.0
  {
    var c := if color.Some? then color.value else d.color;
    var s := OrIfFalsy(speed, DrawnSpeed(d));
    var th := OrIfFalsy(angle, DrawnAngle(d));
    var res := NewSprite(center, 2.0 * radius, 2.0 * radius, Arc(c, th, s));
    res.value
  }

  // ---------------------------------------------------------------------
  // Particle

  /**
   `Particle.__init__`. A zero velocity is falsy and replaced by the drawn
   one; gravity defaults only when absent; a falsy lifetime (absent or zero)
   becomes `PARTICLE_LIFETIME`. The colour starts fully opaque.
   */
  function NewParticle(center: Vec, color: Color, radius: real, velocity: Option<Vec>, gravity: Option<Vec>,
                       lifetime: Option<real>, drawnVelocity: Vec): (p: Sprite)
    ensures p.alive && p.center == center && p.radius == radius
    ensures p.kind.Particle?
    ensures p.kind.color == color && p.kind.alpha == 255
    ensures p.kind.lifetime == OrIfFalsy(lifetime, ParticleLifetime)
    ensures lifetime.None? ==> p.kind.lifetime == ParticleLifetime
    ensures p.kind.gravity == (if gravity.Some? then gravity.value else ParticleGravity)
    ensures p.kind.velocity == (if velocity.Some? && Truthy(velocity.value) then velocity.value else drawnVelocity)
    ensures Faded(p)
  {
    var v := if velocity.Some? && Truthy(velocity.value) then velocity.value else drawnVelocity;
    var g := if gravity.Some? then gravity.value else ParticleGravity;
    var l := OrIfFalsy(lifetime, ParticleLifetime);
    var res := NewSprite(center, 2.0 * radius, 2.0 * radius, Particle(color, 255, v, g, l));
    res.value
  }

  /** Python's `int(x)`: truncation toward zero. */
  function Trunc(x: real): (n: int)
    ensures x >= 0.0 ==> n >= 0 && n as real <= x < n as real + 1.0
    ensures x < 0.0 ==> n <= 0 && n as real - 1.0 < x <= n as real
  {
    if x >= 0.0 then x.Floor else -((-x).Floor)
  }

  /**
   The alpha a particle shows with `lifetime` ticks left:
   `int(max(min(255 * lifetime / PARTICLE_LIFETIME, 255), 0))`. It is a valid
   channel value: transparent once the lifetime runs out, opaque from a full
   lifetime on, and in between the scaled lifetime rounded down.
   */
  function AlphaFor(lifetime: real): (alpha: int)
    ensures 0 <= alpha <= 255
    ensures lifetime <= 0.0 ==> alpha == 0
    ensures lifetime >= ParticleLifetime ==> alpha == 255
    ensures 0.0 < lifetime < ParticleLifetime ==>
              alpha as real <= 255.0 * lifetime / ParticleLifetime < alpha as real + 1.0
  {
    Trunc(RealMax(RealMin(255.0 * lifetime / ParticleLifetime, 255.0), 0.0))
  }

  /** Less lifetime never shows a higher alpha. */
  lemma AlphaMonotone(l1: real, l2: real)
    requires l1 <= l2
    ensures AlphaFor(l1) <= AlphaFor(l2)
  {
    var c1 := RealMax(RealMin(255.0 * l1 / ParticleLifetime, 255.0), 0.0);
    var c2 := RealMax(RealMin(255.0 * l2 / ParticleLifetime, 255.0), 0.0);
    assert c1 <= c2;
    assert c1.Floor <= c2.Floor;
  }

  /**
   A particle's alpha is no higher than its lifetime calls for. It holds from
   construction on (alpha 255) and every tick restores it.
   */
  predicate Faded(p: Sprite) {
    p.kind.Particle? ==> AlphaFor(p.kind.lifetime) <= p.kind.alpha
  }

  /**
   `Particle.update`: the particle moves by its velocity scaled by the speed
   multiplier, gravity is added to the velocity, the lifetime drops by the
   multiplier, the alpha is recomputed from the new lifetime, and the particle
   kills itself once the lifetime is used up.
   */
  function ParticleTick(p: Sprite, mult: real): (q: Sprite)
    requires p.kind.Particle?
    ensures q.kind.Particle?
    ensures q.kind.lifetime == p.kind.lifetime - mult
    ensures 0 <= q.kind.alpha <= 255
    ensures q.kind.alpha == AlphaFor(q.kind.lifetime)
    ensures q.alive <==> p.alive && q.kind.lifetime > 0.0
    ensures q.kind.lifetime <= 0.0 ==> q.kind.alpha == 0
    ensures q.kind.color == p.kind.color && q.radius == p.radius
    ensures Faded(q)
  {
    var k := p.kind;
    var center := Plus(p.center, Scale(k.velocity, mult));
    var velocity := Plus(k.velocity, k.gravity);
    var lifetime := k.lifetime - mult;
    var moved := p.(center := center, kind := k.(velocity := velocity, lifetime := lifetime,
                                                   alpha := AlphaFor(lifetime)));
    if lifetime <= 0.0 then Kill(moved) else moved
  }

  /** With a positive multiplier a tick never raises the alpha. */
  lemma AlphaNeverIncreases(p: Sprite, mult: real)
    requires p.kind.Particle? && Faded(p)
    requires mult > 0.0
    ensures ParticleTick(p, mult).kind.alpha <= p.kind.alpha
  {
    AlphaMonotone(p.kind.lifetime - mult, p.kind.lifetime);
  }

  /** Successive ticks with the given speed multipliers. */
  function Ticks(p: Sprite, mults: seq<real>): (q: Sprite)
    requires p.kind.Particle?
    ensures q.kind.Particle?
    decreases |mults|
  {
    if mults == [] then p else Ticks(ParticleTick(p, mults[0]), mults[1..])
  }

  function Sum(xs: seq<real>): real
    decreases |xs|
  {
    if xs == [] then 0.0 else xs[0] + Sum(xs[1..])
  }

  /** Over any run of ticks with positive multipliers the alpha never rises and the lifetime drops by their sum. */
  lemma {:induction false} TicksFade(p: Sprite, mults: seq<real>)
    requires p.kind.Particle? && Faded(p)
    requires forall i :: 0 <= i < |mults| ==> mults[i] > 0.0
    ensures Ticks(p, mults).kind.alpha <= p.kind.alpha
    ensures Ticks(p, mults).kind.lifetime == p.kind.lifetime - Sum(mults)
    ensures Faded(Ticks(p, mults))
    decreases |mults|
  {
    if mults != [] {
      AlphaNeverIncreases(p, mults[0]);
      TicksFade(ParticleTick(p, mults[0]), mults[1..]);
    }
  }

  /** Once a tick has used up the lifetime the particle stays dead with alpha 0. */
  lemma {:induction false} TicksExpire(p: Sprite, mults: seq<real>)
    requires p.kind.Particle?
    requires |mults| > 0
    requires forall i :: 0 <= i < |mults| ==> mults[i] > 0.0
    requires Sum(mults) >= p.kind.lifetime
    ensures !Ticks(p, mults).alive
    ensures Ticks(p, mults).kind.alpha == 0
    decreases |mults|
  {
    var q := ParticleTick(p, mults[0]);
    if |mults| == 1 {
      assert Sum(mults) == mults[0];
    } else {
      TicksExpire(q, mults[1..]);
    }
  }

  /** Ticking never revives a particle. */
  lemma {:induction false} DeadStaysDead(p: Sprite, mults: seq<real>)
    requires p.kind.Particle? && !p.alive
    ensures !Ticks(p, mults).alive
    decreases |mults|
  {
    if mults != [] {
      DeadStaysDead(ParticleTick(p, mults[0]), mults[1..]);
    }
  }

  function Repeat(x: real, n: nat): (r: seq<real>)
    ensures |r| == n && forall i :: 0 <= i < n ==> r[i] == x
  {
    if n == 0 then [] else [x] + Repeat(x, n - 1)
  }

  lemma {:induction false} SumOfOnes(n: nat)
    ensures Sum(Repeat(1.0, n)) == n as real
  {
    if n > 0 {
      assert Repeat(1.0, n)[1..] == Repeat(1.0, n - 1);
      SumOfOnes(n - 1);
    }
  }

  /**
   At the normal speed multiplier 1 a freshly made particle is dead with
   alpha 0 after at most as many ticks as its lifetime, and its alpha never
   rises on the way.
   */
  lemma ParticleExpiresWithinLifetime(p: Sprite, n: nat)
    requires p.kind.Particle? && Faded(p)
    requires n >= 1 && n as real >= p.kind.lifetime
    ensures !Ticks(p, Repeat(1.0, n)).alive
    ensures Ticks(p, Repeat(1.0, n)).kind.alpha == 0
    ensures Ticks(p, Repeat(1.0, n)).kind.alpha <= p.kind.alpha
  {
    SumOfOnes(n);
    TicksExpire(p, Repeat(1.0, n));
    TicksFade(p, Repeat(1.0, n));
  }
}
