/** The energy of lake water, `E = rho0 * cp * T` with rho0 = 1000 and
    cp = 4184, evaluated pointwise from temperature, and its derivative. */
module LakeEnergy {
  import opened Fields
  import opened ParameterLists

  const Rho0: real := 1000.0
  const Cp: real := 4184.0

  /** The energy of water at temperature t: zero at zero, and of the same
      sign as the temperature. */
  function Energy(t: real): (e: real)
    ensures e == 0.0 <==> t == 0.0
    ensures e > 0.0 <==> t > 0.0
  {
    Rho0 * Cp * t
  }

  /** The derivative of the energy with respect to temperature, the same at
      every temperature. */
  function DEnergyDTemperature(): (r: real)
    ensures r == 4184000.0
  {
    Rho0 * Cp
  }

  /** The energy is linear in temperature with slope DEnergyDTemperature, so
      the derivative agrees with every difference quotient. */
  lemma EnergySlope(t1: real, t2: real)
    ensures Energy(t1) - Energy(t2) == DEnergyDTemperature() * (t1 - t2)
  {
  }

  /** The centred finite difference of the energy equals the derivative
      exactly, at every temperature and every perturbation. */
  lemma CentredDifferenceIsDerivative(t: real, eps: real)
    requires eps != 0.0
    ensures (Energy(t + eps) - Energy(t - eps)) / (2.0 * eps) == DEnergyDTemperature()
  {
    EnergySlope(t + eps, t - eps);
  }

  const DefaultEnergyKey: Key := "surface-energy"

  /** Fills the first n entries of `out` with the energy at the temperature
      of the same index. */
  method FillEnergy(out: array<real>, n: nat, temp: array<real>)
    requires n <= out.Length && n <= temp.Length && out != temp
    modifies out
    ensures forall i :: 0 <= i < n ==> out[i] == Energy(temp[i])
    ensures forall i :: n <= i < out.Length ==> out[i] == old(out[i])
  {
    var i := 0;
    while i != n
      invariant 0 <= i <= n
      invariant forall j :: 0 <= j < i ==> out[j] == Energy(temp[j])
      invariant forall j :: i <= j < out.Length ==> out[j] == old(out[j])
    {
      var t := temp[i];
      out[i] := Rho0 * Cp * t;
      i := i + 1;
    }
  }

  /** Fills the first n entries of `out` with x. */
  method FillConstant(out: array<real>, n: nat, x: real)
    requires n <= out.Length
    modifies out
    ensures forall i :: 0 <= i < n ==> out[i] == x
    ensures forall i :: n <= i < out.Length ==> out[i] == old(out[i])
  {
    var i := 0;
    while i != n
      invariant 0 <= i <= n
      invariant forall j :: 0 <= j < i ==> out[j] == x
      invariant forall j :: i <= j < out.Length ==> out[j] == old(out[j])
    {
      out[i] := x;
      i := i + 1;
    }
  }

  class LakeEnergyEvaluator {
    const myKey: Key
    const temperatureKey: Key
    const dependencies: set<Key>

    ghost predicate Valid() {
      dependencies == {temperatureKey}
    }

    /** Construction: `baseKey` is the key set by the generic evaluator
        constructor; when it is empty the key is the "energy key" entry, by
        default "surface-energy". The temperature key is read for the domain
        of that key, and it is the only dependency. */
    constructor (plist: ParameterList, baseKey: Key, getDomain: Key -> string,
                 readKey: (ParameterList, string, string, string) -> Key)
      ensures Valid()
      ensures myKey == if baseKey == "" then plist.GetString("energy key", DefaultEnergyKey) else baseKey
      ensures temperatureKey == readKey(plist, getDomain(myKey), "temperature", "temperature")
      ensures dependencies == {temperatureKey}
    {
      var key := baseKey;
      if key == "" {
        key := plist.GetString("energy key", DefaultEnergyKey);
      }
      var domainName := getDomain(key);
      var tKey := readKey(plist, domainName, "temperature", "temperature");
      myKey := key;
      temperatureKey := tKey;
      dependencies := {tKey};
    }

    /** The copy constructor: same keys and dependencies. */
    constructor Copy(other: LakeEnergyEvaluator)
      requires other.Valid()
      ensures Valid()
      ensures myKey == other.myKey && temperatureKey == other.temperatureKey
      ensures dependencies == other.dependencies
    {
      myKey := other.myKey;
      temperatureKey := other.temperatureKey;
      dependencies := other.dependencies;
    }

    /** Every owned entry of every component of `result` becomes the energy
        at the temperature of the same entry. */
    method EvaluateField(S: map<Key, CompositeVector<real>>, result: CompositeVector<real>)
      requires result.Valid() && Supplies(S, temperatureKey, result)
      modifies result.cell, result.face
      ensures forall i :: 0 <= i < result.ownedCells ==> result.cell[i] == Energy(S[temperatureKey].cell[i])
      ensures forall i :: 0 <= i < result.ownedFaces ==> result.face[i] == Energy(S[temperatureKey].face[i])
      ensures forall i :: result.ownedCells <= i < result.cell.Length ==> result.cell[i] == old(result.cell[i])
      ensures forall i :: result.ownedFaces <= i < result.face.Length ==> result.face[i] == old(result.face[i])
    {
      var temp := S[temperatureKey];
      FillEnergy(result.cell, result.ownedCells, temp.cell);
      FillEnergy(result.face, result.ownedFaces, temp.face);
    }

    /** With respect to the temperature key every owned entry becomes the
        constant derivative; for any other key nothing happens (the source
        has no else branch). */
    method EvaluateFieldPartialDerivative(S: map<Key, CompositeVector<real>>, wrt: Key,
                                          result: CompositeVector<real>)
      requires result.Valid()
      requires wrt == temperatureKey ==> Supplies(S, temperatureKey, result)
      modifies result.cell, result.face
      ensures wrt != temperatureKey ==>
        result.cell[..] == old(result.cell[..]) && result.face[..] == old(result.face[..])
      ensures wrt == temperatureKey ==>
        (forall i :: 0 <= i < result.ownedCells ==> result.cell[i] == DEnergyDTemperature()) &&
        (forall i :: 0 <= i < result.ownedFaces ==> result.face[i] == DEnergyDTemperature()) &&
        (forall i :: result.ownedCells <= i < result.cell.Length ==> result.cell[i] == old(result.cell[i])) &&
        (forall i :: result.ownedFaces <= i < result.face.Length ==> result.face[i] == old(result.face[i]))
    {
      if wrt == temperatureKey {
        FillConstant(result.cell, result.ownedCells, Rho0 * Cp);
        FillConstant(result.face, result.ownedFaces, Rho0 * Cp);
      }
    }
  }
}
