/*
 * The controller of a 2D vortex-particle simulation: three lists of element
 * collections (active vortex particles, reactive boundaries, inert field
 * points), a list of rigid bodies, the stepping flags and the one future
 * that tracks a step running in the background.
 *
 * The numerical work is outside the model.  The diffusion step, the
 * convection step, the boundary-solver reset and the particle core size
 * derived from dt and Re are functions the controller is constructed with.
 * The background task is not a thread: launching it leaves the future
 * Pending, and FinishStep is the task running to completion.
 */
module Simulations {
  import opened ElementPackets
  import opened Bodies
  import opened Collections

  /** std::numeric_limits<float>::epsilon(), 2^-23. */
  const FloatEpsilon: real := 0.00000011920928955078125

  /** The state of std::future<void>: no shared state, a task still running, a result waiting. */
  datatype Future = Invalid | Pending | Ready

  /** is_future_ready: a valid future whose zero-length wait reports ready.  Never blocks. */
  function IsFutureReady(f: Future): (r: bool)
    ensures f == Invalid ==> !r
    ensures r <==> f.Ready?
  {
    if f == Invalid then false else f == Ready
  }

  /** The unknowns of the boundary-element solver. */
  datatype Bem = Bem(unknowns: seq<real>)

  /** Everything a step changes. */
  datatype FlowState = FlowState(time: real, vort: seq<Collection>, bdry: seq<Collection>,
                                 fldpt: seq<Collection>, bem: Bem)

  /** What a step reads besides the flow: dt, Re, the particle core size and the freestream. */
  datatype StepParams = StepParams(dt: real, re: real, vdelta: real, fs: seq<real>)

  /** A solver stage: it sees the parameters and the whole flow and proposes a new flow; the
      step takes from it only the parts that stage may change. */
  type Stage = (StepParams, FlowState) -> FlowState

  /** One step: diffusion (diff.step) may change the particles, the boundaries and the
      boundary-solver unknowns; convection (conv.advect_2nd) then sees the diffused state and
      may change those and the field points; finally the clock advances by dt. */
  function StepFlow(s: FlowState, p: StepParams, diffusion: Stage, convection: Stage): (r: FlowState)
    ensures r.time == s.time + p.dt
  {
    var d := diffusion(p, s);
    var c := convection(p, s.(vort := d.vort, bdry := d.bdry, bem := d.bem));
    FlowState(s.time + p.dt, c.vort, c.bdry, c.fldpt, c.bem)
  }

  /** `k` consecutive steps. */
  function Steps(s: FlowState, k: nat, p: StepParams, diffusion: Stage, convection: Stage): FlowState
  {
    if k == 0 then s
    else StepFlow(Steps(s, k - 1, p, diffusion, convection), p, diffusion, convection)
  }

  /** After `k` steps the clock has advanced by exactly `k * dt`, whatever the solvers do. */
  lemma {:induction false} StepsAdvanceTime(s: FlowState, k: nat, p: StepParams, diffusion: Stage, convection: Stage)
    ensures Steps(s, k, p, diffusion, convection).time == s.time + (k as real) * p.dt
  {
    if k > 0 {
      StepsAdvanceTime(s, k - 1, p, diffusion, convection);
      assert ((k - 1) as real) * p.dt + p.dt == (k as real) * p.dt;
    }
  }

  // ---------------------------------------------------------------------
  // check_simulation

  const NoFeaturesMsg: string := "No flow features and no bodies. Add one or both, reset, and run.\n"
  const ZeroFreestreamMsg: string := "No flow features and zero freestream speed - try adding one or both.\n"
  const NoDiffusionMsg: string := "You have a solid body, but no diffusion. It will not shed vorticity. Turn on viscosity or add a flow feature, reset, and run.\n"

  /** The decision table of check_simulation, given the number of bodies `nbf`, the number of
      particles, whether the freestream is zero, whether any body moves and whether
      diffusion is on. */
  function Advice(nbf: nat, nparts: nat, zeroFreestream: bool, anyMoves: bool, diffuse: bool): (s: string)
    ensures nparts > 0 ==> s == ""
    ensures nparts == 0 && nbf == 0 ==> s == NoFeaturesMsg
    ensures nparts == 0 && nbf > 0 && zeroFreestream && !anyMoves ==> s == ZeroFreestreamMsg
    ensures nparts == 0 && nbf > 0 && !(zeroFreestream && !anyMoves) && diffuse ==> s == ""
    ensures nparts == 0 && nbf > 0 && !(zeroFreestream && !anyMoves) && !diffuse ==> s == NoDiffusionMsg
  {
    var first := if nbf == 0 && nparts == 0 then NoFeaturesMsg else "";
    if nbf > 0 && nparts == 0 then
      if zeroFreestream && !anyMoves then first + ZeroFreestreamMsg
      else if !diffuse then first + NoDiffusionMsg
      else first
    else first
  }

  /** A run is judged viable (no advice) exactly when there are particles, or there are
      bodies, something to start the flow, and diffusion to shed vorticity. */
  lemma AdviceEmptyIff(nbf: nat, nparts: nat, zeroFreestream: bool, anyMoves: bool, diffuse: bool)
    ensures Advice(nbf, nparts, zeroFreestream, anyMoves, diffuse) == ""
            <==> nparts > 0 || (nbf > 0 && !(zeroFreestream && !anyMoves) && diffuse)
  {
  }

  /** At most one line of advice is ever given. */
  lemma AdviceIsOneLine(nbf: nat, nparts: nat, zeroFreestream: bool, anyMoves: bool, diffuse: bool)
    ensures Advice(nbf, nparts, zeroFreestream, anyMoves, diffuse)
            in {"", NoFeaturesMsg, ZeroFreestreamMsg, NoDiffusionMsg}
  {
  }

  function Magnitude(x: real): real { if x < 0.0 then -x else x }

  /** The freestream counts as zero when its squared speed is below the float epsilon. */
  function ZeroFreestream(fs: seq<real>): bool
    requires |fs| == Dimensions
  {
    fs[0] * fs[0] + fs[1] * fs[1] < FloatEpsilon
  }

  /** The movement test of do_any_bodies_move on the two sampled velocities and rotation rates. */
  function Moving(thisVel: seq<real>, nextVel: seq<real>, thisRot: real, nextRot: real): bool
    requires |thisVel| == Dimensions && |nextVel| == Dimensions
  {
    Magnitude(thisVel[0]) + Magnitude(thisVel[1]) + Magnitude(thisRot) + Magnitude(nextVel[0]) + Magnitude(nextVel[1]) + Magnitude(nextRot) > FloatEpsilon
  }

  /** Whether a body with stored velocity `vel`, expressions `funcs` and rotation rate `avel`
      counts as moving at `time` and `time + dt`. */
  function BodyMoves(vel: seq<real>, funcs: Program, avel: real, time: real, dt: real): bool
    requires |vel| == Dimensions && |funcs| == Dimensions
  {
    Moving(VelAt(vel, funcs, time), VelAt(vel, funcs, time + dt), avel, avel)
  }

  /** A body with literal positions only, at rest and not rotating, does not move. */
  lemma StillBodyDoesNotMove(funcs: Program, time: real, dt: real)
    requires |funcs| == Dimensions && forall i :: 0 <= i < Dimensions ==> funcs[i].None?
    ensures !BodyMoves([0.0, 0.0], funcs, 0.0, time, dt)
  {
  }

  /** A body translating along x at a speed above the epsilon moves. */
  lemma TranslatingBodyMoves(a: real, b: real, time: real, dt: real)
    requires Magnitude(b) > FloatEpsilon
    ensures BodyMoves([0.0, 0.0], [Some(s => a + b * s + 0.0 * s * s), None], 0.0, time, dt)
  {
    CentralDifferenceExactForQuadratic(a, b, 0.0, time);
    CentralDifferenceExactForQuadratic(a, b, 0.0, time + dt);
  }

  /** do_any_bodies_move, over the bodies' state when it is called. */
  ghost predicate AnyBodyMoves(bs: seq<Body>, time: real, dt: real)
    reads bs
    requires forall i :: 0 <= i < |bs| ==> bs[i].Valid()
  {
    exists i :: 0 <= i < |bs| && bs[i].Valid() && BodyMoves(bs[i].vel, bs[i].posFunc, bs[i].avel, time, dt)
  }

  /** The loop body of do_any_bodies_move for one body whose velocity was `orig` before any
      sampling (the body may appear twice in the list and already have been sampled). */
  method SampleMotion(b: Body, time: real, dt: real, ghost orig: seq<real>) returns (moving: bool)
    requires b.Valid() && |orig| == Dimensions
    requires b.vel == orig || b.vel == VelAt(orig, b.posFunc, time + dt)
    modifies b
    ensures b.Valid()
    ensures moving == BodyMoves(orig, b.posFunc, b.avel, time, dt)
    ensures b.vel == VelAt(orig, b.posFunc, time + dt)
    ensures b.Definition() == old(b.Definition()) && b.pos == old(b.pos)
  {
    ghost var f := b.posFunc;
    assert VelAt(b.vel, f, time) == VelAt(orig, f, time) by {
      if b.vel != orig {
        VelAtAbsorbs(orig, f, time + dt, time);
      }
    }
    var thisvel := b.GetVel(time);
    var nextvel := b.GetVel(time + dt);
    VelAtAbsorbs(orig, f, time, time + dt);
    var thisrot := b.GetRotvel(time);
    var nextrot := b.GetRotvel(time + dt);
    moving := Moving(thisvel, nextvel, thisrot, nextrot);
  }

  /** The search loop of add_boundary: every collection is compared with the incoming key
      (reactive, body-bound exactly when a body is given, same body when both are body-bound),
      and each match overwrites the previous one. */
  method ScanBoundaries(cs: seq<Collection>, b: Body?) returns (imatch: nat, noMatch: bool)
    ensures noMatch <==> LastMatch(cs, Reactive, BoundaryMove(b), b).None?
    ensures !noMatch ==> LastMatch(cs, Reactive, BoundaryMove(b), b) == Some(imatch)
  {
    var thisElemType := Reactive;
    var thisMoveType := if b != null then Bodybound else Fixed;
    imatch, noMatch := 0, true;
    var i := 0;
    while i < |cs|
      invariant 0 <= i <= |cs|
      invariant noMatch <==> LastMatch(cs[..i], thisElemType, thisMoveType, b).None?
      invariant !noMatch ==> LastMatch(cs[..i], thisElemType, thisMoveType, b) == Some(imatch)
    {
      var thisMatch := true;
      var tet := cs[i].elem;
      if thisElemType != tet { thisMatch := false; }
      var tmt := cs[i].move;
      if thisMoveType != tmt { thisMatch := false; }
      if thisMoveType == Bodybound && tmt == Bodybound {
        var tbp := cs[i].body;
        if b != tbp { thisMatch := false; }
      }
      assert cs[..i + 1][..i] == cs[..i];
      if thisMatch {
        imatch, noMatch := i, false;
      }
      i := i + 1;
    }
    assert cs[..i] == cs;
  }

  /** The loop of do_any_bodies_move: every body is sampled at `time` and `time + dt`, in
      order, and left with its velocity at `time + dt`. */
  method SampleBodies(bs: seq<Body>, time: real, dt: real) returns (someMove: bool)
    requires forall j :: 0 <= j < |bs| ==> bs[j].Valid()
    modifies bs
    ensures someMove == old(AnyBodyMoves(bs, time, dt))
    ensures forall b :: b in bs ==>
              && b.Valid() && b.Definition() == old(b.Definition()) && b.pos == old(b.pos)
              && b.vel == VelAt(old(b.vel), b.posFunc, time + dt)
  {
    someMove := false;
    var i := 0;
    while i < |bs|
      invariant 0 <= i <= |bs|
      invariant forall b :: b in bs ==>
                  && b.Valid() && b.Definition() == old(b.Definition()) && b.pos == old(b.pos)
                  && (b.vel == old(b.vel) || b.vel == old(VelAt(b.vel, b.posFunc, time + dt)))
      invariant forall j :: 0 <= j < i ==> bs[j].vel == old(VelAt(bs[j].vel, bs[j].posFunc, time + dt))
      invariant someMove <==>
                  (exists j :: 0 <= j < i && old(bs[j].Valid() && BodyMoves(bs[j].vel, bs[j].posFunc, bs[j].avel, time, dt)))
    {
      var b := bs[i];
      var moving := SampleMotion(b, time, dt, old(b.vel));
      if moving {
        someMove := true;
      }
      i := i + 1;
    }
  }

  class Simulation {
    var re: real
    var dt: real
    var fs: seq<real>
    /** Rigid bodies, shared with the collections that ride on them. */
    var bodies: seq<Body>
    /** The clock, the particles (vort), the boundaries (bdry), the field points (fldpt) and
        the boundary-solver unknowns (bem): everything a step advances. */
    var flow: FlowState
    /** Whether the diffusion solver is switched on. */
    var diffuse: bool
    var endTime: real
    var useEndTime: bool
    var maxSteps: nat
    var useMaxSteps: bool
    var simIsInitialized: bool
    var stepHasStarted: bool
    var stepIsFinished: bool
    var stepFuture: Future

    const diffusion: Stage
    const convection: Stage
    const bemReset: Bem -> Bem
    /** get_vdelta: the particle core size for a given dt and Re. */
    const vdeltaOf: (real, real) -> real

    /** A step has started exactly when the one future is valid; bodies are well formed. */
    ghost predicate Valid()
      reads this, bodies
    {
      && |fs| == Dimensions
      && (stepHasStarted <==> stepFuture != Invalid)
      && (forall i :: 0 <= i < |bodies| ==> bodies[i].Valid())
    }

    /** The inputs of a step other than the flow. */
    function Params(): StepParams
      reads this
    {
      StepParams(dt, re, vdeltaOf(dt, re), fs)
    }

    ghost function Flags(): (bool, bool, Future)
      reads this
    {
      (stepHasStarted, stepIsFinished, stepFuture)
    }

    ghost function Settings(): (real, real, seq<real>, bool, real, bool, nat, bool, bool)
      reads this
    {
      (re, dt, fs, diffuse, endTime, useEndTime, maxSteps, useMaxSteps, simIsInitialized)
    }

    constructor (diffusion: Stage, convection: Stage, bemReset: Bem -> Bem,
                 vdeltaOf: (real, real) -> real, bem: Bem, diffuse: bool)
      ensures Valid()
      ensures re == 100.0 && dt == 0.01 && fs == [0.0, 0.0] && flow.time == 0.0
      ensures bodies == [] && flow.vort == [] && flow.bdry == [] && flow.fldpt == []
      ensures !useEndTime && !useMaxSteps && maxSteps == 0 && endTime == 0.0
      ensures !simIsInitialized && !stepHasStarted && !stepIsFinished && stepFuture == Invalid
      ensures this.diffusion == diffusion && this.convection == convection
      ensures this.bemReset == bemReset && this.vdeltaOf == vdeltaOf
      ensures flow.bem == bem && this.diffuse == diffuse
    {
      this.diffusion, this.convection, this.bemReset, this.vdeltaOf := diffusion, convection, bemReset, vdeltaOf;
      re, dt, fs := 100.0, 0.01, [0.0, 0.0];
      bodies := [];
      flow := FlowState(0.0, [], [], [], bem);
      this.diffuse := diffuse;
      endTime, useEndTime, maxSteps, useMaxSteps := 0.0, false, 0, false;
      simIsInitialized, stepHasStarted, stepIsFinished := false, false, false;
      stepFuture := Invalid;
    }

    // -------------------------------------------------------------------
    // Setters

    method SetEndTime(t: real)
      modifies this
      ensures endTime == t && useEndTime
      ensures maxSteps == old(maxSteps) && useMaxSteps == old(useMaxSteps)
      ensures re == old(re) && dt == old(dt) && fs == old(fs) && diffuse == old(diffuse)
      ensures simIsInitialized == old(simIsInitialized)
      ensures flow == old(flow) && Flags() == old(Flags()) && bodies == old(bodies)
    {
      endTime, useEndTime := t, true;
    }

    method SetMaxSteps(n: nat)
      modifies this
      ensures maxSteps == n && useMaxSteps
      ensures endTime == old(endTime) && useEndTime == old(useEndTime)
      ensures re == old(re) && dt == old(dt) && fs == old(fs) && diffuse == old(diffuse)
      ensures simIsInitialized == old(simIsInitialized)
      ensures flow == old(flow) && Flags() == old(Flags()) && bodies == old(bodies)
    {
      maxSteps, useMaxSteps := n, true;
    }

    method SetInitialized()
      modifies this
      ensures simIsInitialized
      ensures re == old(re) && dt == old(dt) && fs == old(fs) && diffuse == old(diffuse)
      ensures endTime == old(endTime) && useEndTime == old(useEndTime)
      ensures maxSteps == old(maxSteps) && useMaxSteps == old(useMaxSteps)
      ensures flow == old(flow) && Flags() == old(Flags()) && bodies == old(bodies)
    {
      simIsInitialized := true;
    }

    // -------------------------------------------------------------------
    // Stepping

    /** step: diffusion, then convection, then time += dt. */
    method Step()
      requires Valid()
      modifies this
      ensures Valid()
      ensures flow == StepFlow(old(flow), Params(), diffusion, convection)
      ensures Settings() == old(Settings()) && Flags() == old(Flags()) && bodies == old(bodies)
    {
      flow := StepFlow(flow, Params(), diffusion, convection);
    }

    /** async_step: mark a step as started and launch one in the background.  The source starts
        the new task before releasing the old future, so two steps may overlap; the model
        completes the pending step before launching the new one. */
    method AsyncStep()
      requires Valid()
      modifies this
      ensures Valid()
      ensures stepHasStarted && stepFuture == Pending && stepIsFinished == old(stepIsFinished)
      ensures flow == (if old(stepFuture) == Pending
                         then StepFlow(old(flow), Params(), diffusion, convection)
                         else old(flow))
      ensures Settings() == old(Settings()) && bodies == old(bodies)
    {
      stepHasStarted := true;
      if stepFuture == Pending {
        Step();
      }
      stepFuture := Pending;
    }

    /** The launched task runs to completion: one step, and the future holds a result. */
    method FinishStep()
      requires Valid() && stepFuture == Pending
      modifies this
      ensures Valid()
      ensures stepFuture == Ready && stepHasStarted && stepIsFinished == old(stepIsFinished)
      ensures flow == StepFlow(old(flow), Params(), diffusion, convection)
      ensures Settings() == old(Settings()) && bodies == old(bodies)
    {
      Step();
      stepFuture := Ready;
    }

    /** test_for_new_results: true when no step is in flight, or when the one in flight has
        finished (its result is then collected); false, with nothing changed, while it runs. */
    method TestForNewResults() returns (r: bool)
      requires Valid()
      modifies this
      ensures Valid()
      ensures r <==> !old(stepHasStarted) || old(stepFuture) == Ready
      ensures !old(stepHasStarted) ==> Flags() == old(Flags())
      ensures old(stepHasStarted) && old(stepFuture) == Ready ==>
                stepIsFinished && !stepHasStarted && stepFuture == Invalid
      ensures old(stepHasStarted) && old(stepFuture) != Ready ==> Flags() == old(Flags())
      ensures flow == old(flow) && Settings() == old(Settings()) && bodies == old(bodies)
    {
      if !stepHasStarted {
        return true;
      } else if IsFutureReady(stepFuture) {
        stepFuture := Invalid;
        stepIsFinished := true;
        stepHasStarted := false;
        return true;
      }
      return false;
    }

    /** The first half of reset: wait for the step in flight, if any, and collect its result;
        afterwards no future is held. */
    method WaitForStep()
      requires Valid()
      modifies this
      ensures stepFuture == Invalid
      ensures flow == (if old(stepFuture) == Pending
                         then StepFlow(old(flow), Params(), diffusion, convection)
                         else old(flow))
      ensures stepHasStarted == old(stepHasStarted) && stepIsFinished == old(stepIsFinished)
      ensures Settings() == old(Settings()) && bodies == old(bodies)
    {
      if stepFuture != Invalid {
        if stepFuture == Pending {
          Step();
        }
        stepFuture := Invalid;
      }
    }

    /** reset: wait for (and collect) any step in flight, then empty every collection list,
        reset the boundary solver, zero the clock and clear all three flags.  Bodies stay. */
    method Reset()
      requires Valid()
      modifies this
      ensures Valid()
      ensures flow == FlowState(0.0, [], [], [],
                                  bemReset(if old(stepFuture) == Pending
                                           then StepFlow(old(flow), Params(), diffusion, convection).bem
                                           else old(flow.bem)))
      ensures !simIsInitialized && !stepHasStarted && !stepIsFinished && stepFuture == Invalid
      ensures bodies == old(bodies) && Params() == old(Params()) && diffuse == old(diffuse)
      ensures endTime == old(endTime) && useEndTime == old(useEndTime)
      ensures maxSteps == old(maxSteps) && useMaxSteps == old(useMaxSteps)
    {
      WaitForStep();
      flow := FlowState(0.0, [], [], [], bemReset(flow.bem));
      simIsInitialized, stepHasStarted, stepIsFinished := false, false, false;
    }

    method ClearBodies()
      requires Valid()
      modifies this
      ensures Valid() && bodies == []
      ensures flow == old(flow) && Flags() == old(Flags()) && Settings() == old(Settings())
    {
      bodies := [];
    }

    // -------------------------------------------------------------------
    // Adding elements

    /** add_particles: stamp the core size on every particle and hand the particles to the
        last collection, or to a new active, Lagrangian one if there is none. */
    method AddParticles(v: seq<real>)
      requires Valid() && |v| % ParticleStride == 0
      modifies this
      ensures Valid()
      ensures |v| == 0 ==> flow == old(flow)
      ensures |v| > 0 ==>
        var w := StampedRadii(v, vdeltaOf(dt, re));
        flow == old(flow).(vort := Ingested(old(flow.vort), w, Points(w, Active, Lagrangian, null)))
      ensures bodies == old(bodies) && Flags() == old(Flags()) && Settings() == old(Settings())
    {
      if |v| == 0 {
        return;
      }
      var w := v;
      var thisvd := vdeltaOf(dt, re);
      var i := 3;
      while i < |w|
        invariant |w| == |v| && 3 <= i && i % ParticleStride == 3
        invariant forall k :: 0 <= k < |w| ==> w[k] == (if k < i && k % ParticleStride == 3 then thisvd else v[k])
        decreases |w| - i
      {
        w := w[i := thisvd];
        i := i + 4;
      }
      assert w == StampedRadii(v, thisvd);
      if |flow.vort| == 0 {
        flow := flow.(vort := [Points(w, Active, Lagrangian, null)]);
      } else {
        var coll := flow.vort[|flow.vort| - 1];
        if coll.Points? {
          flow := flow.(vort := flow.vort[|flow.vort| - 1 := coll.(data := coll.data + w)]);
        }
      }
    }

    /** add_fldpts: hand the points to the last field-point collection, or to a new inert one
        that moves with the flow when `moves` holds and is fixed otherwise. */
    method AddFldpts(v: seq<real>, moves: bool)
      requires Valid() && |v| % Dimensions == 0
      modifies this
      ensures Valid()
      ensures |v| == 0 ==> flow == old(flow)
      ensures |v| > 0 ==>
        flow == old(flow).(fldpt := Ingested(old(flow.fldpt), v, Points(v, Inert, if moves then Lagrangian else Fixed, null)))
      ensures bodies == old(bodies) && Flags() == old(Flags()) && Settings() == old(Settings())
    {
      if |v| == 0 {
        return;
      }
      var moveType := if moves then Lagrangian else Fixed;
      if |flow.fldpt| == 0 {
        flow := flow.(fldpt := [Points(v, Inert, moveType, null)]);
      } else {
        var coll := flow.fldpt[|flow.fldpt| - 1];
        if coll.Points? {
          flow := flow.(fldpt := flow.fldpt[|flow.fldpt| - 1 := coll.(data := coll.data + v)]);
        }
      }
    }

    /** add_boundary: find the last reactive collection with the same movement type (and the
        same body when body-bound); merge the geometry into it, or start a new Surfaces
        collection when there is none. */
    method AddBoundary(b: Body?, g: Packet)
      requires Valid()
      modifies this
      ensures Valid()
      ensures flow == old(flow).(bdry := AddedBoundary(old(flow.bdry), b, g))
      ensures bodies == old(bodies) && Flags() == old(Flags()) && Settings() == old(Settings())
    {
      var cs := flow.bdry;
      var imatch, noMatch := ScanBoundaries(cs, b);
      if noMatch {
        flow := flow.(bdry := cs + [Surfaces(|g.x| / 2, |g.idx| / 2, Reactive, BoundaryMove(b), b)]);
      } else {
        var coll := cs[imatch];
        if coll.Surfaces? {
          flow := flow.(bdry := cs[imatch := coll.(nodes := coll.nodes + |g.x| / 2, panels := coll.panels + |g.idx| / 2)]);
        }
      }
    }

    // -------------------------------------------------------------------
    // Counts

    /** get_npanels: the panels of every Surfaces collection among the boundaries. */
    method GetNPanels() returns (n: nat)
      ensures n == NumPanels(flow.bdry)
    {
      n := 0;
      var i := 0;
      while i < |flow.bdry|
        invariant 0 <= i <= |flow.bdry| && n == NumPanels(flow.bdry[..i])
      {
        assert flow.bdry[..i + 1][..i] == flow.bdry[..i];
        if flow.bdry[i].Surfaces? {
          n := n + flow.bdry[i].panels;
        }
        i := i + 1;
      }
      assert flow.bdry[..i] == flow.bdry;
    }

    /** get_nparts: the size of every active collection. */
    method GetNParts() returns (n: nat)
      ensures n == NumElements(flow.vort)
    {
      n := 0;
      var i := 0;
      while i < |flow.vort|
        invariant 0 <= i <= |flow.vort| && n == NumElements(flow.vort[..i])
      {
        assert flow.vort[..i + 1][..i] == flow.vort[..i];
        n := n + Size(flow.vort[i]);
        i := i + 1;
      }
      assert flow.vort[..i] == flow.vort;
    }

    /** get_nfldpts: the size of every field-point collection. */
    method GetNFldpts() returns (n: nat)
      ensures n == NumElements(flow.fldpt)
    {
      n := 0;
      var i := 0;
      while i < |flow.fldpt|
        invariant 0 <= i <= |flow.fldpt| && n == NumElements(flow.fldpt[..i])
      {
        assert flow.fldpt[..i + 1][..i] == flow.fldpt[..i];
        n := n + Size(flow.fldpt[i]);
        i := i + 1;
      }
      assert flow.fldpt[..i] == flow.fldpt;
    }

    // -------------------------------------------------------------------
    // Diagnostics

    /** do_any_bodies_move: sample every body's velocity at `time` and `time + dt`.  Sampling
        updates each body's stored velocity and clock, so the answer is stated over the
        bodies as they were; a sampled body keeps its velocity at `time + dt`. */
    method DoAnyBodiesMove() returns (someMove: bool)
      requires Valid()
      modifies bodies
      ensures Valid()
      ensures someMove == old(AnyBodyMoves(bodies, flow.time, dt))
      ensures forall b :: b in bodies ==>
                && b.Definition() == old(b.Definition()) && b.pos == old(b.pos)
                && b.vel == VelAt(old(b.vel), b.posFunc, flow.time + dt)
    {
      someMove := SampleBodies(bodies, flow.time, dt);
    }

    /** check_simulation: the advice for a run with `nbf` bodies (`nff`, the number of flow
        features, is not consulted).  Body movement is sampled only when it matters. */
    method CheckSimulation(nff: nat, nbf: nat) returns (msg: string)
      requires Valid()
      modifies bodies
      ensures Valid()
      ensures msg == Advice(nbf, NumElements(flow.vort), ZeroFreestream(fs), old(AnyBodyMoves(bodies, flow.time, dt)), diffuse)
      ensures forall b :: b in bodies ==> b.Definition() == old(b.Definition()) && b.pos == old(b.pos)
      ensures nbf > 0 && NumElements(flow.vort) == 0 ==>
                forall b :: b in bodies ==> b.vel == VelAt(old(b.vel), b.posFunc, flow.time + dt)
      ensures !(nbf > 0 && NumElements(flow.vort) == 0) ==>
                forall b :: b in bodies ==> b.vel == old(b.vel) && b.thisTime == old(b.thisTime)
    {
      ghost var anyMoves := AnyBodyMoves(bodies, flow.time, dt);
      msg := "";
      var nparts := GetNParts();
      if nbf == 0 && nparts == 0 {
        msg := msg + NoFeaturesMsg;
      }
      nparts := GetNParts();
      if nbf > 0 && nparts == 0 {
        var zeroFreestream := fs[0] * fs[0] + fs[1] * fs[1] < FloatEpsilon;
        var moves := DoAnyBodiesMove();
        assert moves == anyMoves && zeroFreestream == ZeroFreestream(fs);
        var noBodyMovement := !moves;
        if zeroFreestream && noBodyMovement {
          msg := msg + ZeroFreestreamMsg;
        } else if !diffuse {
          msg := msg + NoDiffusionMsg;
        }
      } else {
        assert msg == Advice(nbf, nparts, ZeroFreestream(fs), anyMoves, diffuse);
      }
    }

    // -------------------------------------------------------------------
    // The body registry

    method AddBody(b: Body)
      requires Valid() && b.Valid()
      modifies this
      ensures Valid()
      ensures bodies == old(bodies) + [b]
      ensures flow == old(flow) && Flags() == old(Flags()) && Settings() == old(Settings())
    {
      bodies := bodies + [b];
    }

    /** get_last_body: the last body, or a new body named "ground" at the origin, registered
        first, when there is none. */
    method GetLastBody() returns (b: Body)
      requires Valid()
      modifies this
      ensures Valid()
      ensures old(|bodies|) == 0 ==>
                && fresh(b) && bodies == [b] && b.name == "ground" && b.pos == [0.0, 0.0] && b.posFunc == [None, None]
                && b.vel == [0.0, 0.0] && b.apos == 0.0 && b.avel == 0.0
      ensures old(|bodies|) > 0 ==> bodies == old(bodies) && b == bodies[|bodies| - 1]
      ensures flow == old(flow) && Flags() == old(Flags()) && Settings() == old(Settings())
    {
      if |bodies| == 0 {
        b := new Body.Default();
        b.SetName("ground");
        AddBody(b);
      } else {
        b := bodies[|bodies| - 1];
      }
    }

    /** get_pointer_to_body, as written: the scan over the bodies only reports a match, the
        result is never set from it, so every call registers and returns a new "ground" body. */
    method GetPointerToBody(name: string) returns (b: Body)
      requires Valid()
      modifies this
      ensures Valid()
      ensures fresh(b) && b.name == "ground" && bodies == old(bodies) + [b]
      ensures b.pos == [0.0, 0.0] && b.vel == [0.0, 0.0] && b.apos == 0.0 && b.avel == 0.0 && b.posFunc == [None, None]
      ensures flow == old(flow) && Flags() == old(Flags()) && Settings() == old(Settings())
    {
      var bp: Body? := null;
      var i := 0;
      while i < |bodies|
        invariant 0 <= i <= |bodies| && bp == null
      {
        if bodies[i].name == name {
          // a match is reported on the console only
        }
        i := i + 1;
      }
      if bp == null {
        bp := new Body.Default();
        bp.SetName("ground");
        AddBody(bp);
      }
      b := bp;
    }

    /** The lookup get_pointer_to_body is meant to be: the last body with that name, and a new
        "ground" body only when no body has it. */
    method FindBody(name: string) returns (b: Body)
      requires Valid()
      modifies this
      ensures Valid()
      ensures (exists j :: 0 <= j < |old(bodies)| && old(bodies)[j].name == name) ==>
                && bodies == old(bodies) && b.name == name
                && exists k :: 0 <= k < |bodies| && bodies[k] == b
                               && forall j :: k < j < |bodies| ==> bodies[j].name != name
      ensures (forall j :: 0 <= j < |old(bodies)| ==> old(bodies)[j].name != name) ==>
                && fresh(b) && b.name == "ground" && bodies == old(bodies) + [b]
                && b.pos == [0.0, 0.0] && b.vel == [0.0, 0.0] && b.apos == 0.0 && b.avel == 0.0
                && b.posFunc == [None, None]
      ensures flow == old(flow) && Flags() == old(Flags()) && Settings() == old(Settings())
    {
      var bp: Body? := null;
      ghost var at := 0;
      var i := 0;
      while i < |bodies|
        invariant 0 <= i <= |bodies|
        invariant bp == null <==> forall j :: 0 <= j < i ==> bodies[j].name != name
        invariant bp != null ==> at < i && bodies[at] == bp && bp.name == name
                                 && forall j :: at < j < i ==> bodies[j].name != name
      {
        if bodies[i].name == name {
          bp := bodies[i];
          at := i;
        }
        i := i + 1;
      }
      if bp == null {
        bp := new Body.Default();
        bp.SetName("ground");
        AddBody(bp);
      }
      b := bp;
    }
  }

  /** The body a wing was registered under is not what get_pointer_to_body returns for its
      name: the caller receives a second, new "ground" body instead. */
  method PointerToBodyMissesMatch() returns (wing: Body, found: Body)
    ensures wing.name == "wing" && found != wing && found.name == "ground"
  {
    var sim := new Simulation((p, s) => s, (p, s) => s, m => m, (h, r) => 0.0, Bem([]), true);
    wing := new Body.Default();
    wing.SetName("wing");
    sim.AddBody(wing);
    found := sim.GetPointerToBody("wing");
  }

  /** With the corrected lookup the same call returns the wing itself. */
  method FindBodyReturnsMatch() returns (wing: Body, found: Body)
    ensures wing.name == "wing" && found == wing
  {
    var sim := new Simulation((p, s) => s, (p, s) => s, m => m, (h, r) => 0.0, Bem([]), true);
    wing := new Body.Default();
    wing.SetName("wing");
    sim.AddBody(wing);
    assert sim.bodies[0].name == "wing";
    found := sim.FindBody("wing");
  }
}
