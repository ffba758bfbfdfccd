/** The inertia cache of libfranka/src/robot_model.cpp, over arbitrary rigid body dynamics. */
module InertiaCache {

  // The load as the callers pass it.
  datatype Load = Load(inertia: seq<real>, mass: real, center: seq<real>)

  // What the dynamics library computes, for inertias I of the last link: none of these
  // reads anything else that the model changes.
  datatype Dynamics<!I> = Dynamics(
    add: (I, I) -> I,
    act: Load -> I,
    crba: (I, seq<real>) -> seq<real>,
    coriolisTorque: (I, seq<real>, seq<real>) -> seq<real>,
    rnea: (I, seq<real>, seq<real>, seq<real>) -> seq<real>,
    generalizedGravity: (I, seq<real>, seq<real>) -> seq<real>)

  const NO_INERTIA := seq(9, _ => 0.0)

  function Difference(a: seq<real>, b: seq<real>): seq<real> {
    seq(if |a| <= |b| then |a| else |b|, i requires 0 <= i < |a| && i < |b| => a[i] - b[i])
  }

  class RobotModel<I> {
    const dynamics: Dynamics<I>
    const initialInertia: I
    var linkInertia: I
    var modelGravity: seq<real>
    var cacheValid: bool
    var cachedInertia: seq<real>
    var cachedMass: real
    var cachedCenter: seq<real>

    function InertiaWith(load: Load): I { dynamics.add(initialInertia, dynamics.act(load)) }

    // The cache, when valid, holds the load whose inertia the model has.
    ghost predicate Valid()
      reads this
    {
      cacheValid ==> linkInertia == InertiaWith(Load(cachedInertia, cachedMass, cachedCenter))
    }

    constructor (dynamics: Dynamics<I>, inertia: I, gravity: seq<real>)
      ensures Valid() && this.dynamics == dynamics && initialInertia == inertia
    {
      this.dynamics, initialInertia, linkInertia, modelGravity := dynamics, inertia, inertia, gravity;
      cacheValid, cachedInertia, cachedMass, cachedCenter := false, seq(9, _ => -1.0), -1.0, seq(3, _ => -1.0);
    }

    method UpdateInertiaIfNeeded(inertia: seq<real>, mass: real, center: seq<real>)
      requires Valid()
      modifies this`linkInertia, this`cacheValid, this`cachedInertia, this`cachedMass, this`cachedCenter
      ensures Valid() && cacheValid && linkInertia == InertiaWith(Load(inertia, mass, center))
    {
      if cacheValid && cachedMass == mass && cachedInertia == inertia && cachedCenter == center {
        return;
      }
      cachedInertia, cachedMass, cachedCenter := inertia, mass, center;
      linkInertia := dynamics.add(initialInertia, dynamics.act(Load(inertia, mass, center)));
      cacheValid := true;
    }

    method RestoreOriginalInertia()
      requires Valid()
      modifies this`linkInertia, this`cacheValid
      ensures Valid() && !cacheValid
      ensures linkInertia == if old(cacheValid) then initialInertia else old(linkInertia)
    {
      if cacheValid {
        linkInertia, cacheValid := initialInertia, false;
      }
    }

    // Whatever was computed before, mass depends on its arguments only.
    method Mass(q: seq<real>, inertia: seq<real>, mass: real, center: seq<real>) returns (m: seq<real>)
      requires Valid()
      modifies this
      ensures Valid() && m == dynamics.crba(InertiaWith(Load(inertia, mass, center)), q)
    {
      UpdateInertiaIfNeeded(inertia, mass, center);
      m := dynamics.crba(linkInertia, q);
    }

    // So do both overloads of coriolis.
    method Coriolis(q: seq<real>, dq: seq<real>, inertia: seq<real>, mass: real, center: seq<real>)
      returns (c: seq<real>)
      requires Valid()
      modifies this
      ensures Valid() && c == dynamics.coriolisTorque(InertiaWith(Load(inertia, mass, center)), q, dq)
      ensures modelGravity == [0.0, 0.0, -9.81]
    {
      UpdateInertiaIfNeeded(inertia, mass, center);
      modelGravity := [0.0, 0.0, -9.81];
      c := dynamics.coriolisTorque(linkInertia, q, dq);
    }

    method CoriolisWithGravity(q: seq<real>, dq: seq<real>, inertia: seq<real>, mass: real, center: seq<real>,
                               earth: seq<real>)
      returns (c: seq<real>)
      requires Valid()
      modifies this
      ensures Valid()
      ensures var i := InertiaWith(Load(inertia, mass, center));
              c == Difference(dynamics.rnea(i, earth, q, dq), dynamics.generalizedGravity(i, earth, q))
      // With gravity added the result is the torque of the inverse dynamics.
      ensures var i := InertiaWith(Load(inertia, mass, center));
              var tau, g := dynamics.rnea(i, earth, q, dq), dynamics.generalizedGravity(i, earth, q);
              |tau| == |g| ==> |c| == |tau| && forall k :: 0 <= k < |tau| ==> c[k] + g[k] == tau[k]
      ensures modelGravity == earth
    {
      UpdateInertiaIfNeeded(inertia, mass, center);
      modelGravity := earth;
      var tau := dynamics.rnea(linkInertia, modelGravity, q, dq);
      var g := dynamics.generalizedGravity(linkInertia, modelGravity, q);
      c := Difference(tau, g);
    }

    // And gravity, provided there is mass; without mass the inertia of the last call stays.
    method Gravity(q: seq<real>, earth: seq<real>, mass: real, center: seq<real>) returns (g: seq<real>)
      requires Valid()
      modifies this
      ensures Valid()
      ensures mass > 0.0 ==> g == dynamics.generalizedGravity(InertiaWith(Load(NO_INERTIA, mass, center)), earth, q)
      ensures mass <= 0.0 ==>
                g == dynamics.generalizedGravity(old(linkInertia), earth, q) && linkInertia == old(linkInertia)
      ensures modelGravity == earth
    {
      if mass > 0.0 {
        UpdateInertiaIfNeeded(NO_INERTIA, mass, center);
      }
      modelGravity := earth;
      g := dynamics.generalizedGravity(linkInertia, modelGravity, q);
    }
  }

  // Two models with any histories give the same mass matrix for the same arguments;
  // the comparison needs no knowledge of what either computed before.
  method MassIsHistoryFree<I(==)>(a: RobotModel<I>, b: RobotModel<I>, q: seq<real>, inertia: seq<real>, mass: real,
                                  center: seq<real>)
    returns (same: bool)
    requires a != b && a.Valid() && b.Valid() && a.dynamics == b.dynamics && a.initialInertia == b.initialInertia
    modifies a, b
    ensures same
  {
    var m := a.Mass(q, inertia, mass, center);
    var n := b.Mass(q, inertia, mass, center);
    same := m == n;
  }
}
