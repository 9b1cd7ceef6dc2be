/**
 The state `main` keeps between frames and the handlers that change it
 without physics: the arc layouts of `set_mode`, the mode switch, the toggle
 keys, the speed knobs, and `break_arc`, which turns an arc into a burst of
 particles. Sprites live in a store indexed by reference, as in `Groups`.
 */
module Simulation {
  import opened Angles
  import opened Reals
  import opened Results
  import opened AngleCut
  import opened Sprites
  import opened Groups
  import opened Speed

  /** pygame key codes of the keys `main` reacts to. */
  const Key1: int := 49
  const Key2: int := 50
  const Key3: int := 51
  const Key4: int := 52
  const Key9: int := 57

  const ArcStep: real := 40.0
  const ArcCount: nat := 9
  const ParticleAmount: nat := 200

  predicate IsModeKey(key: int) {
    key == Key1 || key == Key2 || key == Key3
  }

  // ---------------------------------------------------------------------
  // Arc layouts

  /**
   The random values `set_mode` draws up front (one colour, angle and speed
   shared by modes 2 and 3) and those each of the nine arcs draws for itself.
   */
  datatype ModeDraws = ModeDraws(shared: ArcDraws, perArc: seq<ArcDraws>)

  predicate ValidModeDraws(d: ModeDraws) {
    && ValidArcDraws(d.shared)
    && |d.perArc| == ArcCount
    && forall i :: 0 <= i < |d.perArc| ==> ValidArcDraws(d.perArc[i])
  }

  /** `max_r = min(center) - 50`, the radius of the outermost arc. */
  function MaxRadius(center: Vec): (r: real)
    ensures r <= center.x - 50.0 && r <= center.y - 50.0
    ensures r == center.x - 50.0 || r == center.y - 50.0
  {
    RealMin(center.x, center.y) - 50.0
  }

  /** The radius of the `i`-th arc, counted from the outside. */
  function RingRadius(center: Vec, i: nat): real {
    MaxRadius(center) - i as real * ArcStep
  }

  /** The `i`-th arc `set_mode` builds for a mode key. */
  function LayoutArc(key: int, center: Vec, d: ModeDraws, i: nat): (a: Sprite)
    requires IsModeKey(key) && ValidModeDraws(d) && i < ArcCount
    ensures a.alive && a.kind.Arc? && a.center == center && a.radius == RingRadius(center, i)
  {
    var color := d.shared.color;
    var angle := DrawnAngle(d.shared);
    var speed := DrawnSpeed(d.shared);
    var own := d.perArc[i];
    if key == Key1 then
      NewArc(center, RingRadius(center, i), None, None, None, own)
    else if key == Key2 then
      NewArc(center, RingRadius(center, i), Some(color), Some(angle), Some(speed + i as real / 2000.0), own)
    else
      NewArc(center, RingRadius(center, i), Some(color), Some(angle + Pi * (i % 2) as real),
             Some(if i % 2 != 0 then speed else -speed), own)
  }

  /**
   `set_mode`: nine concentric arcs with radii stepping down by 40, so the
   last one is the innermost; an unrecognised key builds none.
   */
  function SetMode(key: int, center: Vec, d: ModeDraws): (arcs: seq<Sprite>)
    requires ValidModeDraws(d)
    ensures !IsModeKey(key) ==> arcs == []
    ensures IsModeKey(key) ==> |arcs| == ArcCount
    ensures forall i :: 0 <= i < |arcs| ==>
              arcs[i].alive && arcs[i].kind.Arc? && arcs[i].center == center &&
              arcs[i].radius == RingRadius(center, i)
    ensures forall i, j :: 0 <= i < j < |arcs| ==> arcs[i].radius > arcs[j].radius
  {
    if IsModeKey(key) then
      seq(ArcCount, i requires 0 <= i < ArcCount => LayoutArc(key, center, d, i))
    else
      []
  }

  /**
   Mode 3: all arcs share the colour; arcs at even index turn at `-speed`
   and arcs at odd index at `+speed` with the angle offset by π. An even
   arc keeps the shared angle unless that angle is 0, which Python treats as
   missing.
   */
  lemma SetModeMirrored(center: Vec, d: ModeDraws, i: nat)
    requires ValidModeDraws(d) && i < ArcCount
    ensures var a := SetMode(Key3, center, d)[i];
            && a.kind.color == d.shared.color
            && (i % 2 == 0 ==> a.kind.speed == -DrawnSpeed(d.shared))
            && (i % 2 == 1 ==> a.kind.speed == DrawnSpeed(d.shared))
            && (i % 2 == 1 ==> a.kind.angle == DrawnAngle(d.shared) + Pi)
            && (i % 2 == 0 && DrawnAngle(d.shared) != 0.0 ==> a.kind.angle == DrawnAngle(d.shared))
  {
    var a := SetMode(Key3, center, d)[i];
    assert a == LayoutArc(Key3, center, d, i);
  }

  /**
   Mode 2: all arcs share the colour and (unless it is 0) the angle, and the
   speed grows by 1/2000 per arc unless the sum is 0.
   */
  lemma SetModeShared(center: Vec, d: ModeDraws, i: nat)
    requires ValidModeDraws(d) && i < ArcCount
    ensures var a := SetMode(Key2, center, d)[i];
            var speed := DrawnSpeed(d.shared) + i as real / 2000.0;
            && a.kind.color == d.shared.color
            && (speed != 0.0 ==> a.kind.speed == speed)
            && (DrawnAngle(d.shared) != 0.0 ==> a.kind.angle == DrawnAngle(d.shared))
  {
    var a := SetMode(Key2, center, d)[i];
    assert a == LayoutArc(Key2, center, d, i);
  }

  /** Mode 1: every arc uses its own drawn colour, angle and speed. */
  lemma SetModeIndependent(center: Vec, d: ModeDraws, i: nat)
    requires ValidModeDraws(d) && i < ArcCount
    ensures var a := SetMode(Key1, center, d)[i];
            && a.kind.color == d.perArc[i].color
            && a.kind.angle == DrawnAngle(d.perArc[i])
            && a.kind.speed == DrawnSpeed(d.perArc[i])
  {
    var a := SetMode(Key1, center, d)[i];
    assert a == LayoutArc(Key1, center, d, i);
  }

  // ---------------------------------------------------------------------
  // The state of `main`

  datatype Sim = Sim(
    center: Vec,
    speedMult: real,
    store: map<Ref, Sprite>,
    sprites: seq<Ref>,
    particles: seq<Ref>,
    ball: Ref,
    next: Ref,
    destroyOnCollide: bool,
    particlesOnCursor: bool)

  /**
   The ball is stored and is a ball, every reference in use is below the
   next fresh one, both groups are stored and free of repeats, and the
   multiplier is in range.
   */
  predicate Valid(s: Sim) {
    && s.ball in s.store && s.store[s.ball].kind.Ball?
    && (forall r :: r in s.store ==> r < s.next)
    && Stored(s.sprites, s.store) && Distinct(s.sprites)
    && Stored(s.particles, s.store) && Distinct(s.particles)
    && InRange(s.speedMult)
  }

  /** The references `next`, `next + 1`, ... handed to `n` new sprites. */
  function FreshRefs(next: Ref, n: nat): (refs: seq<Ref>)
    ensures |refs| == n
    ensures forall i :: 0 <= i < n ==> refs[i] == next + i
    ensures Distinct(refs)
  {
    seq(n, i requires 0 <= i < n => next + i)
  }

  /**
   Stores `items` under the fresh references `next`, `next + 1`, ...; the
   sprites already stored keep their references and states.
   */
  function Allocate(store: map<Ref, Sprite>, next: Ref, items: seq<Sprite>): (res: map<Ref, Sprite>)
    requires forall r :: r in store ==> r < next
    ensures forall r :: r in res <==> r in store || next <= r < next + |items|
    ensures forall r :: r in store ==> res[r] == store[r]
    ensures forall r :: next <= r < next + |items| ==> res[r] == items[r - next]
    decreases |items|
  {
    if items == [] then
      store
    else
      var res := Allocate(store[next := items[0]], next + 1, items[1..]);
      assert forall i :: 1 <= i < |items| ==> items[i] == items[1..][i - 1];
      res
  }

  /**
   Appending freshly stored sprites to a group keeps it stored and free of
   repeats: the group keeps its members in front, followed by the new
   references in order, each holding its item.
   */
  lemma AppendFresh(store: map<Ref, Sprite>, next: Ref, items: seq<Sprite>, g: seq<Ref>)
    requires forall r :: r in store ==> r < next
    requires Stored(g, store) && Distinct(g)
    ensures var m := Allocate(store, next, items);
            var h := Add(g, FreshRefs(next, |items|));
            && |h| == |g| + |items|
            && h[..|g|] == g
            && Stored(h, m) && Distinct(h)
            && (forall r :: r in m ==> r < next + |items|)
            && (forall k :: |g| <= k < |h| ==> h[k] == next + (k - |g|) && h[k] !in store && m[h[k]] == items[k - |g|])
  {
    var m := Allocate(store, next, items);
    var refs := FreshRefs(next, |items|);
    var h := Add(g, refs);
    forall x | x in refs
      ensures x !in g && x in m
    {
      var i :| 0 <= i < |refs| && refs[i] == x;
    }
    DistinctAppend(g, refs);
    forall x | x in h
      ensures x in m
    {
      var k :| 0 <= k < |h| && h[k] == x;
      if k >= |g| {
        assert h[k] == refs[k - |g|];
      }
    }
    forall k | |g| <= k < |h|
      ensures h[k] == next + (k - |g|) && h[k] !in store && m[h[k]] == items[k - |g|]
    {
      assert h[k] == refs[k - |g|];
    }
  }

  /** The state right after start-up: the ball at the centre and nine arcs that draw everything themselves. */
  function Initial(center: Vec, own: seq<ArcDraws>): (s: Sim)
    requires |own| == ArcCount && forall i :: 0 <= i < |own| ==> ValidArcDraws(own[i])
    ensures Valid(s)
    ensures s.speedMult == NeutralMult && !s.destroyOnCollide && !s.particlesOnCursor
    ensures |s.sprites| == 1 + ArcCount && s.sprites[0] == s.ball && s.particles == []
    ensures s.store[s.ball] == NewBall(center, BallRadius)
    ensures forall i :: 0 <= i < ArcCount ==> s.store[s.sprites[i + 1]] == InitialArcs(center, own)[i]
  {
    var ball := NewBall(center, BallRadius);
    var arcs := InitialArcs(center, own);
    var store := Allocate(map[0 := ball], 1, arcs);
    var sprites := Add([0], FreshRefs(1, ArcCount));
    AppendFresh(map[0 := ball], 1, arcs, [0]);
    Sim(center, NeutralMult, store, sprites, [], 0, 1 + ArcCount, false, false)
  }

  /** The nine arcs `main` builds at start-up, each drawing its own colour, angle and speed. */
  function InitialArcs(center: Vec, own: seq<ArcDraws>): (arcs: seq<Sprite>)
    requires |own| == ArcCount && forall i :: 0 <= i < |own| ==> ValidArcDraws(own[i])
    ensures |arcs| == ArcCount
  {
    seq(ArcCount, i requires 0 <= i < ArcCount => NewArc(center, RingRadius(center, i), None, None, None, own[i]))
  }

  /** The arcs built at start-up are exactly the ones mode 1 builds from the same draws. */
  lemma InitialIsModeOne(center: Vec, own: seq<ArcDraws>, shared: ArcDraws)
    requires |own| == ArcCount && forall i :: 0 <= i < |own| ==> ValidArcDraws(own[i])
    requires ValidArcDraws(shared)
    ensures var s := Initial(center, own);
            forall i :: 0 <= i < ArcCount ==>
              s.store[s.sprites[i + 1]] == SetMode(Key1, center, ModeDraws(shared, own))[i]
  {
    var s := Initial(center, own);
    forall i | 0 <= i < ArcCount
      ensures s.store[s.sprites[i + 1]] == SetMode(Key1, center, ModeDraws(shared, own))[i]
    {
      assert InitialArcs(center, own)[i] == NewArc(center, RingRadius(center, i), None, None, None, own[i]);
      assert SetMode(Key1, center, ModeDraws(shared, own))[i] == LayoutArc(Key1, center, ModeDraws(shared, own), i);
    }
  }

  /**
   The mode switch of `main` (keys 1, 2, 3): the multiplier returns to 1, the
   group is emptied, the ball is reset to the centre at rest and put back, the
   particles are dropped, and `set_mode` appends its arcs. The ball comes
   first, then nine fresh arcs from the outside in; the toggles are kept.
   */
  function ModeSwitch(s: Sim, key: int, d: ModeDraws): (r: Sim)
    requires Valid(s) && IsModeKey(key) && ValidModeDraws(d)
    ensures Valid(r)
    ensures r.speedMult == NeutralMult && r.particles == []
    ensures r.destroyOnCollide == s.destroyOnCollide && r.particlesOnCursor == s.particlesOnCursor
    ensures r.ball == s.ball && r.store[r.ball] == ResetBall(s.store[s.ball], s.center)
    ensures |r.sprites| == 1 + ArcCount && r.sprites[0] == s.ball
    ensures forall i :: 0 <= i < ArcCount ==>
              r.sprites[i + 1] !in s.store && r.store[r.sprites[i + 1]] == SetMode(key, s.center, d)[i]
  {
    var ball := ResetBall(s.store[s.ball], s.center);
    var arcs := SetMode(key, s.center, d);
    var store := Allocate(s.store[s.ball := ball], s.next, arcs);
    var sprites := Add(Add(Clear(), [s.ball]), FreshRefs(s.next, |arcs|));
    assert Add(Clear(), [s.ball]) == [s.ball];
    AppendFresh(s.store[s.ball := ball], s.next, arcs, [s.ball]);
    s.(speedMult := NeutralMult, store := store, sprites := sprites, particles := Clear(), next := s.next + |arcs|)
  }

  /** After a mode switch the ball is at the centre at rest, and the arcs behind it shrink strictly from the outside in. */
  lemma ModeSwitchLayout(s: Sim, key: int, d: ModeDraws)
    requires Valid(s) && IsModeKey(key) && ValidModeDraws(d)
    ensures var r := ModeSwitch(s, key, d);
            && r.store[r.ball].kind == Ball(Vec(0.0, 0.0)) && r.store[r.ball].center == s.center
            && forall i, j :: 1 <= i < j < |r.sprites| ==> r.store[r.sprites[i]].radius > r.store[r.sprites[j]].radius
  {
    var r := ModeSwitch(s, key, d);
    StoredAfterFirst(r.sprites, r.store, SetMode(key, s.center, d));
  }

  /** Sprites stored behind a leading one in the order of `arcs` inherit its strictly decreasing radii. */
  lemma StoredAfterFirst(g: seq<Ref>, store: map<Ref, Sprite>, arcs: seq<Sprite>)
    requires Stored(g, store) && |g| == |arcs| + 1
    requires forall i :: 0 <= i < |arcs| ==> store[g[i + 1]] == arcs[i]
    requires forall i, j :: 0 <= i < j < |arcs| ==> arcs[i].radius > arcs[j].radius
    ensures forall i, j :: 1 <= i < j < |g| ==> store[g[i]].radius > store[g[j]].radius
  {
    forall i, j | 1 <= i < j < |g|
      ensures store[g[i]].radius > store[g[j]].radius
    {
      var a, b := i - 1, j - 1;
      assert store[g[a + 1]] == arcs[a] && store[g[b + 1]] == arcs[b];
    }
  }

  /** A key press: the mode keys rebuild the layout, 4 and 9 flip their toggles, any other key does nothing. */
  function HandleKey(s: Sim, key: int, d: ModeDraws): (r: Sim)
    requires Valid(s) && ValidModeDraws(d)
    ensures Valid(r)
    ensures key == Key4 ==> r == s.(destroyOnCollide := !s.destroyOnCollide)
    ensures key == Key9 ==> r == s.(particlesOnCursor := !s.particlesOnCursor)
    ensures !IsModeKey(key) && key != Key4 && key != Key9 ==> r == s
    ensures IsModeKey(key) ==> r.speedMult == NeutralMult && r.particles == [] && |r.sprites| == 1 + ArcCount
  {
    if IsModeKey(key) then ModeSwitch(s, key, d)
    else if key == Key4 then s.(destroyOnCollide := !s.destroyOnCollide)
    else if key == Key9 then s.(particlesOnCursor := !s.particlesOnCursor)
    else s
  }

  /** Pressing 4 (or 9) twice in a row leaves the state as it was. */
  lemma ToggleTwiceRestores(s: Sim, key: int, d: ModeDraws)
    requires Valid(s) && ValidModeDraws(d) && (key == Key4 || key == Key9)
    ensures HandleKey(HandleKey(s, key, d), key, d) == s
  {
  }

  /** The events that touch this state without physics. */
  datatype Event = KeyDown(key: int, draws: ModeDraws) | MiddleClick | Wheel(y: int)

  predicate ValidEvent(e: Event) {
    e.KeyDown? ==> ValidModeDraws(e.draws)
  }

  /** One event: a key press, a middle click (multiplier back to 1) or a wheel turn. */
  function Handle(s: Sim, e: Event): (r: Sim)
    requires Valid(s) && ValidEvent(e)
    ensures Valid(r)
    ensures e.MiddleClick? ==> r == s.(speedMult := NeutralMult)
    ensures e.Wheel? ==> r == s.(speedMult := Scroll(s.speedMult, e.y))
  {
    match e
    case KeyDown(key, d) => HandleKey(s, key, d)
    case MiddleClick => s.(speedMult := NeutralMult)
    case Wheel(y) => s.(speedMult := Scroll(s.speedMult, y))
  }

  /** A run of events, in order. */
  function Run(s: Sim, es: seq<Event>): Sim
    requires Valid(s) && forall i :: 0 <= i < |es| ==> ValidEvent(es[i])
    decreases |es|
  {
    if es == [] then s else Run(Handle(s, es[0]), es[1..])
  }

  /** Whatever events occur, the state stays valid, so the multiplier never leaves [0.1, 3]. */
  lemma {:induction false} RunKeepsSpeedInRange(s: Sim, es: seq<Event>)
    requires Valid(s) && forall i :: 0 <= i < |es| ==> ValidEvent(es[i])
    ensures Valid(Run(s, es))
    ensures MinMult <= Run(s, es).speedMult <= MaxMult
    decreases |es|
  {
    if es != [] {
      RunKeepsSpeedInRange(Handle(s, es[0]), es[1..]);
    }
  }

  /** Liveness of a stored sprite, as `Group.update` reads it. */
  function IsAlive(p: Sprite): bool {
    p.alive
  }

  /** What `update` does to a member of the particle group at multiplier `mult`. */
  function ParticleStep(mult: real): Sprite -> Sprite {
    (p: Sprite) => if p.kind.Particle? then ParticleTick(p, mult) else p
  }

  /**
   `particles.update()` in the frame loop: every particle alive at the start
   of the pass is ticked once and stays, in order, every dead one is dropped,
   and no other sprite changes.
   */
  function UpdateParticles(s: Sim): (r: Sim)
    requires Valid(s)
    ensures Valid(r)
    ensures forall x :: x in r.particles <==> x in s.particles && s.store[x].alive
    ensures r.particles == KeepAlive(s.particles, s.store, IsAlive)
    ensures r.store.Keys == s.store.Keys
    ensures forall x :: x in s.particles && s.store[x].alive && s.store[x].kind.Particle? ==>
              r.store[x] == ParticleTick(s.store[x], s.speedMult)
    ensures forall x :: x in s.store && !(x in s.particles && s.store[x].alive) ==> r.store[x] == s.store[x]
    ensures r.sprites == s.sprites && r.speedMult == s.speedMult
  {
    var (ps, store) := Update(s.particles, s.store, IsAlive, ParticleStep(s.speedMult));
    UpdateKeepsInitiallyAlive(s.particles, s.store, IsAlive, ParticleStep(s.speedMult));
    KeepAliveDistinct(s.particles, s.store, IsAlive);
    s.(particles := ps, store := store)
  }

  /**
   A particle whose remaining lifetime is at most the multiplier is killed by
   the pass that ticks it, with alpha 0, and is gone after the next pass.
   */
  lemma ExpiringParticleLeaves(s: Sim, x: Ref)
    requires Valid(s) && x in s.particles
    requires s.store[x].alive && s.store[x].kind.Particle?
    requires s.store[x].kind.lifetime <= s.speedMult
    ensures var r := UpdateParticles(s);
            && x in r.particles && !r.store[x].alive && r.store[x].kind.alpha == 0
            && x !in UpdateParticles(r).particles
  {
    var r := UpdateParticles(s);
    assert !r.store[x].alive;
  }

  // ---------------------------------------------------------------------
  // Fracture

  /** The random values behind one particle of a burst: `random()` for the angle and `randint(1, 3)` for the radius. */
  datatype ParticleDraw = ParticleDraw(u: real, radius: int, velocity: Vec)

  predicate ValidParticleDraws(ds: seq<ParticleDraw>) {
    forall i :: 0 <= i < |ds| ==> 0.0 <= ds[i].u < 1.0 && 1 <= ds[i].radius <= 3
  }

  /**
   The cut a fracture avoids: `ARC_DELTA` radians ending at the arc's angle.
   The arc's angle lies exactly `ARC_DELTA` past the start, so it is where the
   cut ends and is not itself in the cut.
   */
  function CutStart(arc: Sprite): (c: real)
    requires arc.kind.Arc?
    ensures Mod2Pi(arc.kind.angle - c) == ArcDelta
    ensures !InCut(c, ArcDelta, arc.kind.angle)
  {
    var c := arc.kind.angle - ArcDelta;
    ModOfInRange(ArcDelta);
    assert arc.kind.angle - c == ArcDelta;
    c
  }

  /** The angle of one particle: `random_angle_with_cut(arc.angle - ARC_DELTA, ARC_DELTA)`, which cannot fail. */
  function FractureAngle(arc: Sprite, u: real): (theta: real)
    requires arc.kind.Arc? && 0.0 <= u < 1.0
    ensures 0.0 <= theta < TwoPi
    ensures !InCut(CutStart(arc), ArcDelta, theta)
  {
    var res := RandomAngleWithCut(CutStart(arc), ArcDelta, u);
    res.value
  }

  /**
   One particle of a burst: on the arc's circle at `-theta` from the x axis
   (`rotate` stands for `Vector2.rotate_rad`), in the arc's colour, with the
   drawn radius and velocity and the default gravity and lifetime.
   */
  function BurstParticle(center: Vec, arc: Sprite, d: ParticleDraw, rotate: (Vec, real) -> Vec): (p: Sprite)
    requires arc.kind.Arc? && 0.0 <= d.u < 1.0
    ensures p.alive && p.kind.Particle?
    ensures p.kind.color == arc.kind.color && p.kind.alpha == 255 && p.kind.lifetime == ParticleLifetime
    ensures p.kind.gravity == ParticleGravity
    ensures p.radius == d.radius as real
  {
    var theta := FractureAngle(arc, d.u);
    NewParticle(Plus(center, rotate(Vec(arc.radius, 0.0), -theta)), arc.kind.color, d.radius as real,
                None, None, None, d.velocity)
  }

  /** The 200 particles of a burst, one per draw. */
  function Burst(center: Vec, arc: Sprite, draws: seq<ParticleDraw>, rotate: (Vec, real) -> Vec): (ps: seq<Sprite>)
    requires arc.kind.Arc? && ValidParticleDraws(draws)
    ensures |ps| == |draws|
  {
    seq(|draws|, i requires 0 <= i < |draws| => BurstParticle(center, arc, draws[i], rotate))
  }

  /** `kill` on a stored sprite other than the ball: only its liveness flag changes. */
  function KillStored(s: Sim, x: Ref): (r: Sim)
    requires Valid(s) && x in s.store && x != s.ball
    ensures Valid(r)
    ensures r == s.(store := s.store[x := Kill(s.store[x])])
  {
    s.(store := s.store[x := Kill(s.store[x])])
  }

  /**
   `particles.add(...)` of newly made particles: they are stored under fresh
   references and appended after the existing particles; nothing else changes.
   */
  function AddParticles(s: Sim, items: seq<Sprite>): (r: Sim)
    requires Valid(s)
    ensures Valid(r)
    ensures r.sprites == s.sprites && r.ball == s.ball && r.speedMult == s.speedMult
    ensures forall x :: x in s.store ==> x in r.store && r.store[x] == s.store[x]
    ensures |r.particles| == |s.particles| + |items|
    ensures r.particles[..|s.particles|] == s.particles
    ensures forall k :: |s.particles| <= k < |r.particles| ==>
              r.particles[k] !in s.store && r.store[r.particles[k]] == items[k - |s.particles|]
  {
    var store := Allocate(s.store, s.next, items);
    var particles := Add(s.particles, FreshRefs(s.next, |items|));
    AppendFresh(s.store, s.next, items, s.particles);
    s.(store := store, particles := particles, next := s.next + |items|)
  }

  /**
   `break_arc`: the arc is killed (it stays in its group until the next
   update pass) and 200 particles from the arc are appended to the particle
   group under fresh references; nothing else changes.
   */
  function BreakArc(s: Sim, arcRef: Ref, draws: seq<ParticleDraw>, rotate: (Vec, real) -> Vec): (r: Sim)
    requires Valid(s) && arcRef in s.store && s.store[arcRef].kind.Arc?
    requires |draws| == ParticleAmount && ValidParticleDraws(draws)
    ensures Valid(r)
    ensures r.sprites == s.sprites && r.ball == s.ball && r.speedMult == s.speedMult
    ensures |r.particles| == |s.particles| + ParticleAmount
  {
    var arc := s.store[arcRef];
    AddParticles(KillStored(s, arcRef), Burst(s.center, arc, draws, rotate))
  }

  /** `break_arc` kills the arc and leaves every other sprite already stored as it was. */
  lemma BreakArcKillsOnlyArc(s: Sim, arcRef: Ref, draws: seq<ParticleDraw>, rotate: (Vec, real) -> Vec)
    requires Valid(s) && arcRef in s.store && s.store[arcRef].kind.Arc?
    requires |draws| == ParticleAmount && ValidParticleDraws(draws)
    ensures var r := BreakArc(s, arcRef, draws, rotate);
            && arcRef in r.store && r.store[arcRef] == Kill(s.store[arcRef])
            && forall x :: x in s.store && x != arcRef ==> x in r.store && r.store[x] == s.store[x]
  {
    var k := KillStored(s, arcRef);
    var r := BreakArc(s, arcRef, draws, rotate);
    assert r == AddParticles(k, Burst(s.center, s.store[arcRef], draws, rotate));
  }

  /**
   `break_arc` keeps the existing particles in front and appends the burst
   behind them, in order, under references that were not in use.
   */
  lemma BreakArcAppendsBurst(s: Sim, arcRef: Ref, draws: seq<ParticleDraw>, rotate: (Vec, real) -> Vec)
    requires Valid(s) && arcRef in s.store && s.store[arcRef].kind.Arc?
    requires |draws| == ParticleAmount && ValidParticleDraws(draws)
    ensures var r := BreakArc(s, arcRef, draws, rotate);
            && r.particles[..|s.particles|] == s.particles
            && forall k :: |s.particles| <= k < |r.particles| ==>
                 r.particles[k] !in s.store &&
                 r.store[r.particles[k]] == Burst(s.center, s.store[arcRef], draws, rotate)[k - |s.particles|]
  {
    var k := KillStored(s, arcRef);
    var r := BreakArc(s, arcRef, draws, rotate);
    assert r == AddParticles(k, Burst(s.center, s.store[arcRef], draws, rotate));
    assert k.store.Keys == s.store.Keys && k.particles == s.particles;
  }

  /** Appending fresh references to a group without repeats keeps it without repeats. */
  lemma DistinctAppend(a: seq<Ref>, b: seq<Ref>)
    requires Distinct(a) && Distinct(b)
    requires forall x :: x in b ==> x !in a
    ensures Distinct(a + b)
  {
    var c := a + b;
    forall i, j | 0 <= i < j < |c|
      ensures c[i] != c[j]
    {
      if j >= |a| && i < |a| {
        assert c[j] == b[j - |a|] && c[j] in b;
      } else if i >= |a| {
        assert c[i] == b[i - |a|] && c[j] == b[j - |a|];
      }
    }
  }

  /**
   When `rotate` preserves lengths, as a rotation does, every particle of the
   burst sits at the arc's radius from the centre, at an angle in [0, 2π)
   outside the cut `[angle - ARC_DELTA, angle)`.
   */
  lemma BurstOnArcCircle(center: Vec, arc: Sprite, d: ParticleDraw, rotate: (Vec, real) -> Vec)
    requires arc.kind.Arc? && 0.0 <= d.u < 1.0
    requires forall v, a :: NormSq(rotate(v, a)) == NormSq(v)
    ensures var p := BurstParticle(center, arc, d, rotate);
            var theta := FractureAngle(arc, d.u);
            && NormSq(Vec(p.center.x - center.x, p.center.y - center.y)) == arc.radius * arc.radius
            && p.center == Plus(center, rotate(Vec(arc.radius, 0.0), -theta))
            && 0.0 <= theta < TwoPi
            && !InCut(arc.kind.angle - ArcDelta, ArcDelta, theta)
  {
    var theta := FractureAngle(arc, d.u);
    var off := rotate(Vec(arc.radius, 0.0), -theta);
    var p := BurstParticle(center, arc, d, rotate);
    assert p.center == Plus(center, off);
    assert Vec(p.center.x - center.x, p.center.y - center.y) == off;
    assert NormSq(off) == NormSq(Vec(arc.radius, 0.0));
  }
}
