/** The per-particle force step of `useFrame`
    (src/components/ParticleScene.tsx): which velocity terms are added
    under which mode, effect, readiness and pointer state, followed by
    damping and integration.

    The trigonometric, square-root and exponential parts of each term
    (curl noise, `Math.hypot`, the waves of the waterfall, breathing,
    ripple and shockwave effects) enter per particle as a `Local` record of
    precomputed reals; the gating and the arithmetic around them are
    modelled exactly. */
module Simulation {
  import opened Base
  import Lattice

  datatype Mode = RandomMode | TextMode | ImageMode | MeshMode

  datatype Effect =
    | NoEffect | RandomCloud | Explode | Vortex | Shockwave | Blackhole | Waterfall
    | Rainbow | Wind | Breathing | Ripple | Sphere | GridEffect

  const Damping: real := 0.92
  const AttractBase: real := 0.06
  const AttractPerAmp: real := 0.2
  const ExplodeBase: real := 0.35
  const ExplodePerAmp: real := 0.8
  const StepScale: real := 0.02
  const MinMotionSpeed: real := 0.05
  const PointerRadius: real := 8.0
  const PointerGain: real := 0.6
  const AntiCenterGain: real := 0.04
  const WindGain: real := 0.08
  const BreathingGain: real := 0.10
  const RippleGain: real := 0.18
  const SphereRadius: real := 20.0
  const SphereGain: real := 0.06
  const GridGain: real := 0.08
  const VortexBase: real := 0.06
  const ShockGain: real := 0.12
  const BlackholeStrength: real := 0.08
  const BlackholeReach: real := 1.8
  /** Floor `Math.max(0.001, ...)` puts under every radius it divides by. */
  const MinRadius: real := 0.001

  /** The per-frame settings the loop reads. `amp` is the microphone
      level, the mean of the analyser's bytes over 255. */
  datatype Frame = Frame(
    mode: Mode,
    effect: Effect,
    targetsReady: bool,
    motionSpeed: real,
    amp: real,
    hasMouse: bool,
    antiCenterEnabled: bool,
    antiCenterRadius: real,
    antiCenterStrength: real,
    voidRadius: real,
    particleCount: int)

  /** The precomputed per-particle quantities. */
  datatype Local = Local(
    noise: Vec3,        // curlNoise(0.03 * position)
    radius: real,       // max(0.001, |p|)
    outward: Vec3,      // p / radius
    fall: real,         // -0.12 + 0.06 * sin(time + 0.1 * px)
    windTangent: Vec3,  // the unit tangent about the wind centre, z = 0
    windReach: real,    // min(1, rm / 14)
    breath: real,       // sin(1.5 * time)
    ripple: real,       // sin(phase) * exp(-3 |sin(phase)|)
    swirl: Vec3,        // (-py, px, 0) / max(0.001, hypot(px, py))
    swirlReach: real,   // min(1, r / 12) for that planar radius
    shock: real,        // sin(2.2 * time - 0.8 * radius)
    pointerDist: real,  // hypot(px - mx, py - my)
    pointerDir: Vec3,   // (px - mx, py - my, 0) / pointerDist
    originLen: real,    // hypot(px, py, pz), unclamped
    originDir: Vec3)    // p / max(0.001, originLen)

  /** What the source guarantees about the precomputed quantities: clamped
      radii and non-negative lengths. */
  predicate LocalOk(l: Local) {
    l.radius >= MinRadius && l.pointerDist >= 0.0 && l.originLen >= 0.0
  }

  /** A velocity contribution, named after the `if` block that adds it;
      the constructors are listed in the order the loop body runs them. */
  datatype Term =
    | NoiseTerm | WaterfallTerm | WindTerm | BreathingTerm | RippleTerm | SphereTerm | GridTerm
    | VortexTerm | ShockwaveTerm | BlackholeTerm | ExplodeTerm | AttractTerm | PointerTerm | AntiCenterTerm

  /** `!(mode === 'image' && effect === 'none')`. */
  predicate AllowMotion(f: Frame) {
    !(f.mode == ImageMode && f.effect == NoEffect)
  }

  /** The effect whose block adds the term, for the effect terms. */
  function EffectOf(t: Term): Option<Effect> {
    match t
    case WaterfallTerm => Some(Waterfall)
    case WindTerm => Some(Wind)
    case BreathingTerm => Some(Breathing)
    case RippleTerm => Some(Ripple)
    case SphereTerm => Some(Sphere)
    case GridTerm => Some(GridEffect)
    case VortexTerm => Some(Vortex)
    case ShockwaveTerm => Some(Shockwave)
    case BlackholeTerm => Some(Blackhole)
    case ExplodeTerm => Some(Explode)
    case _ => None
  }

  /** The blackhole pulls only inside 1.8 void radii. */
  predicate InBlackhole(f: Frame, l: Local) {
    l.radius < f.voidRadius * BlackholeReach
  }

  /** The pointer pushes only inside its 8-unit radius (0 without a pointer). */
  predicate NearPointer(f: Frame, l: Local) {
    f.hasMouse && l.pointerDist < PointerRadius
  }

  /** The anti-center push acts only inside its radius. */
  predicate NearCenter(f: Frame, l: Local) {
    f.antiCenterEnabled && l.originLen < f.antiCenterRadius
  }

  /** Whether the loop body adds term `t` for this particle. */
  predicate Active(t: Term, f: Frame, l: Local)
  {
    match t
    case NoiseTerm => AllowMotion(f)
    case BlackholeTerm => AllowMotion(f) && f.effect == Blackhole && InBlackhole(f, l)
    case AttractTerm => !(AllowMotion(f) && f.effect == Explode) && f.targetsReady
    case PointerTerm => NearPointer(f, l)
    case AntiCenterTerm => NearCenter(f, l)
    case _ => AllowMotion(f) && EffectOf(t) == Some(f.effect)
  }

  /** `0.02 * max(0.05, motionSpeed)`. */
  function StepSize(f: Frame): real {
    StepScale * MaxReal(MinMotionSpeed, f.motionSpeed)
  }

  function Neg(a: Vec3): Vec3 {
    Vec3(-a.x, -a.y, -a.z)
  }

  /** Everything the loop body reads for one particle slot besides the
      frame settings: its precomputed quantities, its lattice point (for the
      grid effect), its position and its target. */
  datatype Site = Site(local: Local, lattice: Vec3, pos: Vec3, target: Vec3)

  /** The attraction block's value: a pull toward the target, stronger
      with the microphone level. */
  function Pull(f: Frame, pos: Vec3, target: Vec3): Vec3 {
    Scale(Sub(target, pos), (AttractBase + f.amp * AttractPerAmp) * StepSize(f))
  }

  /** The value of every other block, as the block computes it; none of
      them reads the target. */
  function LocalValue(t: Term, f: Frame, l: Local, lattice: Vec3, pos: Vec3): (v: Vec3)
    requires LocalOk(l) && Active(t, f, l) && t != AttractTerm
    ensures t == WindTerm || t == VortexTerm || t == PointerTerm ==> v.z == 0.0
    ensures t == WaterfallTerm ==> v.x == 0.0 && v.z == 0.0
    ensures t == GridTerm && lattice == pos ==> v == Zero
  {
    var ms := f.motionSpeed;
    var st := StepSize(f);
    match t
    case NoiseTerm => Scale(l.noise, st)
    case WaterfallTerm => Vec3(0.0, l.fall * ms * st, 0.0)
    case WindTerm =>
      var k := WindGain * l.windReach * ms;
      Vec3(l.windTangent.x * k * st, l.windTangent.y * k * st, 0.0)
    case BreathingTerm => Scale(l.outward, l.breath * BreathingGain * ms * st)
    case RippleTerm => Scale(l.outward, l.ripple * RippleGain * ms * st)
    case SphereTerm => Scale(l.outward, (SphereRadius - l.radius) * (SphereGain * ms) * st)
    case GridTerm => Scale(Sub(lattice, pos), GridGain * ms * st)
    case VortexTerm =>
      var k := VortexBase * l.swirlReach * ms;
      Vec3(l.swirl.x * k * st, l.swirl.y * k * st, 0.0)
    case ShockwaveTerm => Scale(l.outward, l.shock * ShockGain * ms * st)
    case BlackholeTerm =>
      var reach := f.voidRadius * BlackholeReach;
      var k := BlackholeStrength * (1.0 - MinReal(1.0, l.radius / reach)) * ms;
      Scale(Neg(l.outward), k * st)
    case ExplodeTerm => Scale(l.outward, (ExplodeBase + f.amp * ExplodePerAmp) * st)
    case PointerTerm =>
      var k := (PointerRadius - l.pointerDist) / PointerRadius;
      Vec3(l.pointerDir.x * k * (PointerGain * ms), l.pointerDir.y * k * (PointerGain * ms), 0.0)
    case AntiCenterTerm =>
      var k := (f.antiCenterRadius - l.originLen) / f.antiCenterRadius;
      Scale(l.originDir, f.antiCenterStrength * k * (AntiCenterGain * ms))
  }

  /** The velocity term's value, as the block computes it. */
  function TermValue(t: Term, f: Frame, s: Site): Vec3
    requires LocalOk(s.local) && Active(t, f, s.local)
  {
    if t == AttractTerm then Pull(f, s.pos, s.target)
    else LocalValue(t, f, s.local, s.lattice, s.pos)
  }

  /** What block `t` adds to the velocity: its value when it runs, nothing
      otherwise. The source's precomputed quantities always satisfy
      `LocalOk`; outside it no block is taken to run. */
  function Contribution(t: Term, f: Frame, s: Site): Vec3 {
    if LocalOk(s.local) && Active(t, f, s.local) then TermValue(t, f, s) else Zero
  }

  /** The contribution of every block, for one particle. */
  function Contributions(f: Frame, s: Site): Term -> Vec3 {
    t => Contribution(t, f, s)
  }

  /** The noise block and the effect blocks, explode included: the ones a
      static image skips. */
  const MotionBlocks: seq<Term> := [
    NoiseTerm, WaterfallTerm, WindTerm, BreathingTerm, RippleTerm, SphereTerm, GridTerm,
    VortexTerm, ShockwaveTerm, BlackholeTerm, ExplodeTerm]

  /** The blocks after them: attraction, the pointer push, the anti-center
      push. */
  const PullBlocks: seq<Term> := [AttractTerm, PointerTerm, AntiCenterTerm]

  /** Every block, in the order the loop body runs them. */
  const AllBlocks: seq<Term> := MotionBlocks + PullBlocks

  /** The sum of `c(t)` over the blocks `ts`, in order. */
  function SumOver(ts: seq<Term>, c: Term -> Vec3): Vec3 {
    if |ts| == 0 then Zero else Add(c(ts[0]), SumOver(ts[1..], c))
  }

  /** What the loop body adds to a particle's velocity before damping. */
  function Force(f: Frame, s: Site): Vec3 {
    SumOver(AllBlocks, Contributions(f, s))
  }

  /** When no block runs for the particle, the force is zero. */
  lemma NoBlockNoForce(f: Frame, s: Site)
    requires forall t :: !Active(t, f, s.local)
    ensures Force(f, s) == Zero
  {
    var c := Contributions(f, s);
    forall k | 0 <= k < |AllBlocks|
      ensures c(AllBlocks[k]) == Zero
    {
      Idle(AllBlocks[k], f, s);
    }
    SumOverZero(AllBlocks, c);
  }

  lemma {:induction false} SumOverAppend(a: seq<Term>, b: seq<Term>, c: Term -> Vec3)
    ensures SumOver(a + b, c) == Add(SumOver(a, c), SumOver(b, c))
  {
    if |a| == 0 {
      assert a + b == b;
    } else {
      assert (a + b)[1..] == a[1..] + b;
      SumOverAppend(a[1..], b, c);
    }
  }

  /** When every block after the first adds nothing, the sum is the first
      block's value. */
  lemma SumOverHead(ts: seq<Term>, c: Term -> Vec3)
    requires |ts| > 0
    requires forall k :: 1 <= k < |ts| ==> c(ts[k]) == Zero
    ensures SumOver(ts, c) == c(ts[0])
  {
    forall k | 0 <= k < |ts[1..]|
      ensures c(ts[1..][k]) == Zero
    {
      assert ts[1..][k] == ts[k + 1];
    }
    SumOverZero(ts[1..], c);
    assert Add(c(ts[0]), Zero) == c(ts[0]);
  }

  /** Blocks that add nothing sum to nothing. */
  lemma {:induction false} SumOverZero(ts: seq<Term>, c: Term -> Vec3)
    requires forall k :: 0 <= k < |ts| ==> c(ts[k]) == Zero
    ensures SumOver(ts, c) == Zero
  {
    if |ts| > 0 {
      SumOverZero(ts[1..], c);
    }
  }

  /** The sum depends only on the values at the blocks summed. */
  lemma {:induction false} SumOverAgree(ts: seq<Term>, c: Term -> Vec3, d: Term -> Vec3)
    requires forall k :: 0 <= k < |ts| ==> c(ts[k]) == d(ts[k])
    ensures SumOver(ts, c) == SumOver(ts, d)
  {
    if |ts| > 0 {
      SumOverAgree(ts[1..], c, d);
    }
  }

  datatype Particle = Particle(pos: Vec3, vel: Vec3)

  /** One particle's update: add the contributions to the velocity, damp it
      by 0.92, then move by the new velocity. */
  function StepParticle(f: Frame, s: Site, vel: Vec3): (r: Particle)
    ensures r.pos == Add(s.pos, r.vel)
    ensures Force(f, s) == Zero ==> r.vel == Scale(vel, Damping)
  {
    var v := Scale(Add(vel, Force(f, s)), Damping);
    Particle(Add(s.pos, v), v)
  }

  // ---------------------------------------------------------------------
  // Gating rules

  /** At most one effect block runs, the one selected, and only when motion
      is allowed; explode replaces attraction; attraction needs the targets
      to be ready; noise runs exactly when motion is allowed. */
  lemma Gating(f: Frame, l: Local)
    ensures forall t :: Active(t, f, l) && EffectOf(t).Some? ==> AllowMotion(f) && EffectOf(t) == Some(f.effect)
    ensures Active(ExplodeTerm, f, l) <==> f.effect == Explode
    ensures Active(AttractTerm, f, l) <==> f.effect != Explode && f.targetsReady
    ensures Active(NoiseTerm, f, l) <==> AllowMotion(f)
  {
  }

  /** A static image (mode image, effect none) runs no noise, effect or
      explode block. */
  lemma StaticImageBlocks(f: Frame, l: Local)
    requires f.mode == ImageMode && f.effect == NoEffect
    ensures forall t :: Active(t, f, l) ==> t in PullBlocks
  {
  }

  /** So its force is attraction (when the targets are ready) plus the
      pointer and anti-center pushes. */
  lemma StaticImageIgnoresAmbient(f: Frame, s: Site)
    requires f.mode == ImageMode && f.effect == NoEffect
    ensures Force(f, s) == SumOver(PullBlocks, Contributions(f, s))
  {
    var c := Contributions(f, s);
    MotionIdle(f, s);
    ForceSplits(f, s);
    assert Add(Zero, SumOver(PullBlocks, c)) == SumOver(PullBlocks, c);
  }

  /** The force is the motion blocks' sum plus the pull blocks' sum. */
  lemma ForceSplits(f: Frame, s: Site)
    ensures Force(f, s) == Add(SumOver(MotionBlocks, Contributions(f, s)), SumOver(PullBlocks, Contributions(f, s)))
  {
    SumOverAppend(MotionBlocks, PullBlocks, Contributions(f, s));
  }

  /** A static image's motion blocks add nothing. */
  lemma MotionIdle(f: Frame, s: Site)
    requires f.mode == ImageMode && f.effect == NoEffect
    ensures SumOver(MotionBlocks, Contributions(f, s)) == Zero
  {
    var c := Contributions(f, s);
    forall k | 0 <= k < |MotionBlocks|
      ensures c(MotionBlocks[k]) == Zero
    {
      Idle(MotionBlocks[k], f, s);
    }
    SumOverZero(MotionBlocks, c);
  }

  /** While a new sample is being committed (`targetsReady` false), and
      under explode, the targets do not influence any particle. */
  lemma TargetsIgnored(f: Frame, s: Site, vel: Vec3, other: Vec3)
    requires !f.targetsReady || f.effect == Explode
    ensures StepParticle(f, s, vel) == StepParticle(f, s.(target := other), vel)
  {
    var c, d := Contributions(f, s), Contributions(f, s.(target := other));
    forall k | 0 <= k < |AllBlocks|
      ensures c(AllBlocks[k]) == d(AllBlocks[k])
    {
      if AllBlocks[k] == AttractTerm {
        assert !Active(AttractTerm, f, s.local);
      } else {
        TermIgnoresTarget(AllBlocks[k], f, s, other);
      }
    }
    SumOverAgree(AllBlocks, c, d);
  }

  /** A block that does not run adds nothing. */
  lemma Idle(t: Term, f: Frame, s: Site)
    requires !Active(t, f, s.local)
    ensures Contribution(t, f, s) == Zero
  {
  }

  /** Only the attraction block reads the target. */
  lemma TermIgnoresTarget(t: Term, f: Frame, s: Site, other: Vec3)
    requires t != AttractTerm
    ensures Contribution(t, f, s) == Contribution(t, f, s.(target := other))
  {
    var s' := s.(target := other);
    assert s'.local == s.local && s'.pos == s.pos && s'.lattice == s.lattice;
  }

  // ---------------------------------------------------------------------
  // Motion

  /** With nothing active (a static image, targets not ready, no pointer or
      anti-center push in range) a particle coasts: its velocity shrinks by
      the damping factor and it moves by the damped velocity. */
  lemma FreeFlight(f: Frame, s: Site, vel: Vec3)
    requires f.mode == ImageMode && f.effect == NoEffect && !f.targetsReady
    requires !NearPointer(f, s.local) && !NearCenter(f, s.local)
    ensures StepParticle(f, s, vel) == Particle(Add(s.pos, Scale(vel, Damping)), Scale(vel, Damping))
  {
    NoBlockNoForce(f, s);
    assert Add(vel, Zero) == vel;
  }

  /** Under attraction alone a particle at rest moves a fixed fraction of
      the way toward its target on every axis: strictly closer, never past
      it, and a particle on its target stays there. The fraction
      `0.92 * (0.06 + 0.2 amp) * step` stays below 1 for a microphone level
      in [0, 1] and any motion speed up to 100. */
  lemma ApproachesTarget(f: Frame, s: Site)
    requires LocalOk(s.local)
    requires f.mode == ImageMode && f.effect == NoEffect && f.targetsReady
    requires !NearPointer(f, s.local) && !NearCenter(f, s.local)
    requires 0.0 <= f.amp <= 1.0 && f.motionSpeed <= 100.0
    ensures var p, t, q := s.pos, s.target, StepParticle(f, s, Zero).pos;
      && Closer(p.x, q.x, t.x) && Closer(p.y, q.y, t.y) && Closer(p.z, q.z, t.z)
  {
    AttractStep(f, s);
    AttractCloser(f, s.pos, s.target, StepParticle(f, s, Zero).pos);
  }

  /** The damped attraction pull of frame `f` brings a point closer to `t`
      on every axis. */
  lemma AttractCloser(f: Frame, p: Vec3, t: Vec3, q: Vec3)
    requires 0.0 <= f.amp <= 1.0 && f.motionSpeed <= 100.0
    requires q == Add(p, Scale(Scale(Sub(t, p), (AttractBase + f.amp * AttractPerAmp) * StepSize(f)), Damping))
    ensures Closer(p.x, q.x, t.x) && Closer(p.y, q.y, t.y) && Closer(p.z, q.z, t.z)
  {
    PullGain(f);
    PullCloser(p, t, (AttractBase + f.amp * AttractPerAmp) * StepSize(f), q);
  }

  /** A damped pull with gain `k` brings a point closer to `t` on every
      axis. */
  lemma PullCloser(p: Vec3, t: Vec3, k: real, q: Vec3)
    requires 0.0 < k && Damping * k < 1.0
    requires q == Add(p, Scale(Scale(Sub(t, p), k), Damping))
    ensures Closer(p.x, q.x, t.x) && Closer(p.y, q.y, t.y) && Closer(p.z, q.z, t.z)
  {
    MovesCloser(p.x, t.x, k);
    MovesCloser(p.y, t.y, k);
    MovesCloser(p.z, t.z, k);
  }

  /** From rest, a particle under attraction alone moves by the damped
      pull. */
  lemma AttractStep(f: Frame, s: Site)
    requires LocalOk(s.local)
    requires f.mode == ImageMode && f.effect == NoEffect && f.targetsReady
    requires !NearPointer(f, s.local) && !NearCenter(f, s.local)
    ensures var k := (AttractBase + f.amp * AttractPerAmp) * StepSize(f);
      StepParticle(f, s, Zero).pos == Add(s.pos, Scale(Scale(Sub(s.target, s.pos), k), Damping))
  {
    AttractOnly(f, s);
    assert Add(Zero, Pull(f, s.pos, s.target)) == Pull(f, s.pos, s.target);
  }

  /** The damped attraction gain `0.92 * (0.06 + 0.2 amp) * step` is a
      fraction in (0, 1) for a level in [0, 1] and a speed up to 100. */
  lemma PullGain(f: Frame)
    requires 0.0 <= f.amp <= 1.0 && f.motionSpeed <= 100.0
    ensures var k := (AttractBase + f.amp * AttractPerAmp) * StepSize(f);
      0.0 < k && Damping * k < 1.0
  {
    var a := AttractBase + f.amp * AttractPerAmp;
    var st := StepSize(f);
    assert 0.001 <= st <= 2.0;
    assert 0.06 <= a <= 0.26 by {
      NonnegMul(f.amp, AttractPerAmp);
      MulAtMost(f.amp, 1.0, AttractPerAmp);
    }
    PosMul(a, st);
    MulAtMost(a, 0.26, st);
    MulAtMost(st, 2.0, 0.26);
  }

  /** With the targets ready and nothing else in range, a static image's
      force is the attraction block's pull alone. */
  lemma AttractOnly(f: Frame, s: Site)
    requires LocalOk(s.local)
    requires f.mode == ImageMode && f.effect == NoEffect && f.targetsReady
    requires !NearPointer(f, s.local) && !NearCenter(f, s.local)
    ensures Force(f, s) == Pull(f, s.pos, s.target)
  {
    StaticImageIgnoresAmbient(f, s);
    PullsAlone(f, s);
  }

  /** The pull blocks add the attraction pull alone when the pointer and
      the anti-center push are out of range. */
  lemma PullsAlone(f: Frame, s: Site)
    requires LocalOk(s.local)
    requires Active(AttractTerm, f, s.local)
    requires !NearPointer(f, s.local) && !NearCenter(f, s.local)
    ensures SumOver(PullBlocks, Contributions(f, s)) == Pull(f, s.pos, s.target)
  {
    var c := Contributions(f, s);
    forall k | 1 <= k < |PullBlocks|
      ensures c(PullBlocks[k]) == Zero
    {
      Idle(PullBlocks[k], f, s);
    }
    SumOverHead(PullBlocks, c);
    assert c(AttractTerm) == Pull(f, s.pos, s.target);
  }

  /** `q` lies between `p` and `t`, strictly closer to `t` unless `p` is
      already there. */
  predicate Closer(p: real, q: real, t: real) {
    && (p < t ==> p < q < t)
    && (t < p ==> t < q < p)
    && (p == t ==> q == t)
  }

  /** One damped attraction step with gain `k` from `p` toward `t`. */
  lemma MovesCloser(p: real, t: real, k: real)
    requires 0.0 < k && Damping * k < 1.0
    ensures Closer(p, p + ((t - p) * k) * Damping, t)
  {
    var gain := Damping * k;
    assert ((t - p) * k) * Damping == gain * t - gain * p;
    if p < t {
      StepsInside(p, t, gain, gain * t - gain * p);
    } else if t < p {
      StepsInside(-p, -t, gain, gain * -t - gain * -p);
    }
  }

  /** A step of `v = gain (t - p)`, written multiplied out, lands strictly
      between `p` and `t`. */
  lemma StepsInside(p: real, t: real, gain: real, v: real)
    requires 0.0 < gain < 1.0 && p < t && v == gain * t - gain * p
    ensures p < p + v < t
  {
    PosMul(gain, t - p);
    PosMul(1.0 - gain, t - p);
  }

  lemma MulAtMost(a: real, b: real, c: real)
    requires a <= b && c >= 0.0
    ensures a * c <= b * c
  {
    NonnegMul(b - a, c);
  }

  // ---------------------------------------------------------------------
  // The whole frame

  /** The site the loop body reads for slot `i`: the slot's precomputed
      quantities, position and target, and the lattice point the grid block
      computes for index `i` from the frame's particle count. */
  function SlotSite(f: Frame, i: nat, l: Local, pos: Vec3, target: Vec3): Site {
    Site(l, GridTarget(f.particleCount, i), pos, target)
  }

  /** The frame loop over every particle slot; slot `i` reads only its own
      position, velocity, target and precomputed quantities, and its own
      lattice point, so the slots update independently. */
  method StepAll(f: Frame, locals: seq<Local>, positions: seq<Vec3>, targets: seq<Vec3>, vels: seq<Vec3>)
    returns (r: seq<Particle>)
    requires |positions| == |locals| && |targets| == |locals| && |vels| == |locals|
    ensures |r| == |locals|
    ensures forall i :: 0 <= i < |locals| ==>
      r[i] == StepParticle(f, Site(locals[i], GridTarget(f.particleCount, i), positions[i], targets[i]), vels[i])
  {
    r := [];
    var i := 0;
    while i < |locals|
      invariant 0 <= i <= |locals| && |r| == i
      invariant forall j :: 0 <= j < i ==>
        r[j] == StepParticle(f, SlotSite(f, j, locals[j], positions[j], targets[j]), vels[j])
    {
      r := r + [StepParticle(f, SlotSite(f, i, locals[i], positions[i], targets[i]), vels[i])];
      i := i + 1;
    }
  }

  /** Under the grid effect the grid block pulls slot `i` toward its lattice
      point, `(lattice - p) * 0.08 * motionSpeed * step`. */
  lemma GridPull(f: Frame, i: nat, l: Local, pos: Vec3, target: Vec3)
    requires LocalOk(l) && f.effect == GridEffect
    ensures var g := GridTarget(f.particleCount, i);
      Contribution(GridTerm, f, SlotSite(f, i, l, pos, target))
        == Scale(Sub(g, pos), GridGain * f.motionSpeed * StepSize(f))
  {
    GridPullToward(f, Site(l, GridTarget(f.particleCount, i), pos, target));
  }

  lemma GridPullToward(f: Frame, s: Site)
    requires LocalOk(s.local) && f.effect == GridEffect
    ensures Contribution(GridTerm, f, s) == Scale(Sub(s.lattice, s.pos), GridGain * f.motionSpeed * StepSize(f))
  {
    assert AllowMotion(f) && Active(GridTerm, f, s.local);
  }

  /** The lattice point the grid block pulls slot `i` toward, for a frame
      whose scene asks for `particleCount` particles. */
  function GridTarget(particleCount: int, i: nat): (t: Vec3)
    ensures -22.5 <= t.x <= 22.5 && -22.5 <= t.y <= 22.5 && -22.5 <= t.z <= 22.5
  {
    Lattice.LatticePoint(i, Lattice.GridSide(particleCount))
  }
}
