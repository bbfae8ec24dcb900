/** The retargeting cycle of `ParticleScene` (src/components/ParticleScene.tsx):
    whenever the mode, text, image, model or effect changes, the scene
    raises `loading`, clears `targetsReady`, runs one sampler, and then sets
    `targetsReady` and clears `loading` again.

    The loads a sampler awaits (the image worker, `fetch` with
    `createImageBitmap`, an `Image` element, the glTF loader) enter as
    booleans saying whether each one succeeded. */
module Retarget {
  import opened Base
  import opened Simulation

  /** The sampler a cycle runs. */
  datatype Source = RandomSource | TextSource | ImageSource | MeshSource

  /** `randomCloud` overrides the mode; otherwise the mode picks the
      sampler, and the random mode gets random targets. */
  function SourceFor(mode: Mode, effect: Effect): (k: Source)
    ensures k == RandomSource <==> effect == RandomCloud || mode == RandomMode
    ensures effect != RandomCloud ==>
      && (k == TextSource <==> mode == TextMode)
      && (k == ImageSource <==> mode == ImageMode)
      && (k == MeshSource <==> mode == MeshMode)
  {
    if effect == RandomCloud then RandomSource
    else match mode
      case TextMode => TextSource
      case ImageMode => ImageSource
      case MeshMode => MeshSource
      case RandomMode => RandomSource
  }

  /** The two flags the cycle drives. */
  datatype Flags = Flags(targetsReady: bool, loading: bool)

  /** The flags while a sampler runs: the frame loop ignores the targets
      and the UI shows the loading state. */
  const InFlight: Flags := Flags(false, true)

  /** The flags once a sampler has returned. */
  const Settled: Flags := Flags(true, false)

  /** Whether each awaited load succeeded. */
  datatype Loads = Loads(workerOk: bool, fetchOk: bool, imageElementOk: bool, gltfOk: bool)

  /** How `setTargetsFromImage` ends: with the worker's sample, with the
      main-thread sample (after the worker failed, from `fetch` or else from
      an `Image` element), or by throwing when every way to decode the image
      failed. */
  datatype ImageRoute = ViaWorker | ViaMainThread | ImageThrows

  function RouteImage(l: Loads): (r: ImageRoute)
    ensures r == ViaWorker <==> l.workerOk
    ensures r == ImageThrows <==> !l.workerOk && !l.fetchOk && !l.imageElementOk
  {
    if l.workerOk then ViaWorker
    else if l.fetchOk || l.imageElementOk then ViaMainThread
    else ImageThrows
  }

  /** Whether the sampler returns normally. The random and text samplers
      await nothing that can fail; the image sampler throws only when every
      decoding route failed; the mesh sampler throws when the glTF load
      does. */
  predicate Returns(k: Source, l: Loads) {
    match k
    case RandomSource => true
    case TextSource => true
    case ImageSource => RouteImage(l) != ImageThrows
    case MeshSource => l.gltfOk
  }

  /** The flags after the cycle as written: the flag updates follow the
      awaited call with no `try`/`finally`, so a thrown load skips them and
      the scene stays in flight. */
  function CycleFlagsAsWritten(k: Source, l: Loads): (f: Flags)
    ensures f == Settled <==> Returns(k, l)
    ensures f == InFlight <==> !Returns(k, l)
  {
    if Returns(k, l) then Settled else InFlight
  }

  /** A glTF or image load that fails leaves `loading` raised and
      `targetsReady` cleared for good. */
  lemma FailedLoadStaysInFlight(l: Loads)
    requires !l.gltfOk
    requires !l.workerOk && !l.fetchOk && !l.imageElementOk
    ensures CycleFlagsAsWritten(MeshSource, l) == InFlight
    ensures CycleFlagsAsWritten(ImageSource, l) == InFlight
  {
  }

  /** The end of a cycle: the flags, and whether new targets were
      committed. */
  datatype CycleEnd = CycleEnd(flags: Flags, committed: bool)

  /** The cycle with the flag updates in a `finally`: it always settles, and
      commits new targets exactly when the sampler returned; a failed load
      keeps the previous targets. */
  function Cycle(k: Source, l: Loads): (e: CycleEnd)
    ensures e.flags == Settled
    ensures e.committed <==> Returns(k, l)
    ensures e.committed ==> e.flags == CycleFlagsAsWritten(k, l)
  {
    CycleEnd(Settled, Returns(k, l))
  }

  /** The frame a particle sees: its `targetsReady` is the cycle's flag. */
  function FrameAfter(f: Frame, flags: Flags): Frame {
    f.(targetsReady := flags.targetsReady)
  }

  /** As written, after a failed load no particle is ever attracted again
      (until the next cycle): the frame loop keeps reading a cleared
      `targetsReady`. */
  lemma StuckCycleNeverAttracts(k: Source, l: Loads, f: Frame, loc: Local)
    requires !Returns(k, l)
    ensures !Active(AttractTerm, FrameAfter(f, CycleFlagsAsWritten(k, l)), loc)
  {
  }

  /** With the flags settled in a `finally`, attraction resumes after every
      cycle, failed or not, unless the effect is explode. */
  lemma CycleResumesAttraction(k: Source, l: Loads, f: Frame, loc: Local)
    requires f.effect != Explode
    ensures Active(AttractTerm, FrameAfter(f, Cycle(k, l).flags), loc)
  {
  }

  /** While a cycle is in flight the frame loop ignores the targets, so a
      half-committed buffer never pulls a particle. */
  lemma InFlightIgnoresTargets(f: Frame, s: Site, vel: Vec3, other: Vec3)
    ensures StepParticle(FrameAfter(f, InFlight), s, vel) == StepParticle(FrameAfter(f, InFlight), s.(target := other), vel)
  {
    TargetsIgnored(FrameAfter(f, InFlight), s, vel, other);
  }
}
