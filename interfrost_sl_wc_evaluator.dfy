/** The algebraic evaluator of the liquid part of the Interfrost water
    content. The model's formulas are not part of this model: they enter as
    functions of (porosity, liquid saturation, liquid molar density, ice
    molar density, cell volume). What is modelled is the dependency set,
    the pointwise evaluation and the dispatch of partial derivatives. */
module InterfrostSlWc {
  import opened Wrappers
  import opened Fields
  import opened ParameterLists

  type Formula = (real, real, real, real, real) -> real

  /** The water content and its five partial derivatives. */
  datatype WcFormulas = WcFormulas(
    waterContent: Formula,
    dPorosity: Formula,
    dSaturationLiquid: Formula,
    dMolarDensityLiquid: Formula,
    dMolarDensityIce: Formula,
    dCellVolume: Formula)

  datatype Dependency = Porosity | SaturationLiquid | MolarDensityLiquid | MolarDensityIce | CellVolume

  /** The model object the evaluator holds (and shares with its copies). */
  class InterfrostSlWcModel {
    const formulas: WcFormulas

    constructor (formulas: WcFormulas)
      ensures this.formulas == formulas
    {
      this.formulas := formulas;
    }

    /** The partial derivative with respect to one dependency. */
    function Partial(d: Dependency): Formula {
      match d
      case Porosity => formulas.dPorosity
      case SaturationLiquid => formulas.dSaturationLiquid
      case MolarDensityLiquid => formulas.dMolarDensityLiquid
      case MolarDensityIce => formulas.dMolarDensityIce
      case CellVolume => formulas.dCellVolume
    }
  }

  const AssertionFailedMessage: string := "assertion failed"

  /** Fills the first n entries of `out` with f applied to the entries of
      the five inputs at the same index; the rest of `out` is unchanged. */
  method FillPointwise(out: array<real>, n: nat, phi: array<real>, sl: array<real>,
                       nl: array<real>, ni: array<real>, cv: array<real>, f: Formula)
    requires n <= out.Length && n <= phi.Length && n <= sl.Length && n <= nl.Length
    requires n <= ni.Length && n <= cv.Length
    requires out != phi && out != sl && out != nl && out != ni && out != cv
    modifies out
    ensures forall i :: 0 <= i < n ==> out[i] == f(phi[i], sl[i], nl[i], ni[i], cv[i])
    ensures forall i :: n <= i < out.Length ==> out[i] == old(out[i])
  {
    var i := 0;
    while i != n
      invariant 0 <= i <= n
      invariant forall j :: 0 <= j < i ==> out[j] == f(phi[j], sl[j], nl[j], ni[j], cv[j])
      invariant forall j :: i <= j < out.Length ==> out[j] == old(out[j])
    {
      out[i] := f(phi[i], sl[i], nl[i], ni[i], cv[i]);
      i := i + 1;
    }
  }

  class InterfrostSlWcEvaluator {
    const myKey: Key
    const phiKey: Key
    const slKey: Key
    const nlKey: Key
    const niKey: Key
    const cvKey: Key
    const dependencies: set<Key>
    const model: InterfrostSlWcModel

    ghost predicate Valid() {
      dependencies == {phiKey, slKey, nlKey, niKey, cvKey}
    }

    /** The key under which each dependency is read. */
    function KeyOf(d: Dependency): Key {
      match d
      case Porosity => phiKey
      case SaturationLiquid => slKey
      case MolarDensityLiquid => nlKey
      case MolarDensityIce => niKey
      case CellVolume => cvKey
    }

    /** Construction from the evaluator's parameter list: each dependency key
        is read from the list, defaulting to the domain prefix of the
        evaluator's own key followed by the field's name, and the model is
        built afresh from its formulas. */
    constructor (plist: ParameterList, myKey: Key, getDomainPrefix: Key -> string, formulas: WcFormulas)
      ensures Valid()
      ensures this.myKey == myKey
      ensures phiKey == plist.GetString("porosity key", getDomainPrefix(myKey) + "porosity")
      ensures slKey == plist.GetString("saturation liquid key", getDomainPrefix(myKey) + "saturation_liquid")
      ensures nlKey == plist.GetString("molar density liquid key", getDomainPrefix(myKey) + "molar_density_liquid")
      ensures niKey == plist.GetString("molar density ice key", getDomainPrefix(myKey) + "molar_density_ice")
      ensures cvKey == plist.GetString("cell volume key", getDomainPrefix(myKey) + "cell_volume")
      ensures fresh(model) && model.formulas == formulas
    {
      var domainName := getDomainPrefix(myKey);
      var deps: set<Key> := {};
      var phi := plist.GetString("porosity key", domainName + "porosity");
      deps := deps + {phi};
      var sl := plist.GetString("saturation liquid key", domainName + "saturation_liquid");
      deps := deps + {sl};
      var nl := plist.GetString("molar density liquid key", domainName + "molar_density_liquid");
      deps := deps + {nl};
      var ni := plist.GetString("molar density ice key", domainName + "molar_density_ice");
      deps := deps + {ni};
      var cv := plist.GetString("cell volume key", domainName + "cell_volume");
      deps := deps + {cv};
      this.myKey := myKey;
      phiKey, slKey, nlKey, niKey, cvKey := phi, sl, nl, ni, cv;
      dependencies := deps;
      model := new InterfrostSlWcModel(formulas);
    }

    /** The copy constructor: same keys and dependencies, the same model object. */
    constructor Copy(other: InterfrostSlWcEvaluator)
      requires other.Valid()
      ensures Valid()
      ensures myKey == other.myKey && dependencies == other.dependencies
      ensures phiKey == other.phiKey && slKey == other.slKey && nlKey == other.nlKey
      ensures niKey == other.niKey && cvKey == other.cvKey
      ensures model == other.model
    {
      myKey := other.myKey;
      dependencies := other.dependencies;
      phiKey, slKey, nlKey := other.phiKey, other.slKey, other.nlKey;
      niKey, cvKey := other.niKey, other.cvKey;
      model := other.model;
    }

    /** Which partial derivative a request with respect to `wrt` computes:
        the keys are compared in the order porosity, liquid saturation,
        liquid molar density, ice molar density, cell volume, and a key that
        is not a dependency has no derivative. */
    function Dispatch(wrt: Key): (r: Option<Dependency>)
      requires Valid()
      ensures r.Some? <==> wrt in dependencies
      ensures r.Some? ==> KeyOf(r.value) == wrt
      ensures r == Some(SaturationLiquid) ==> wrt != phiKey
      ensures r == Some(MolarDensityLiquid) ==> wrt != phiKey && wrt != slKey
      ensures r == Some(MolarDensityIce) ==> wrt != phiKey && wrt != slKey && wrt != nlKey
      ensures r == Some(CellVolume) ==> wrt != phiKey && wrt != slKey && wrt != nlKey && wrt != niKey
    {
      if wrt == phiKey then Some(Porosity)
      else if wrt == slKey then Some(SaturationLiquid)
      else if wrt == nlKey then Some(MolarDensityLiquid)
      else if wrt == niKey then Some(MolarDensityIce)
      else if wrt == cvKey then Some(CellVolume)
      else None
    }

    /** With five distinct keys, a request by a dependency's key computes the
        derivative with respect to that dependency. */
    lemma DispatchByKey(d: Dependency)
      requires Valid()
      requires |dependencies| == 5
      ensures Dispatch(KeyOf(d)) == Some(d)
    {
    }

    /** The state holds every dependency, on at least the owned entries of
        `result`, in arrays other than `result`'s. */
    ghost predicate Readable(S: map<Key, CompositeVector<real>>, result: CompositeVector<real>) {
      Supplies(S, phiKey, result) && Supplies(S, slKey, result) && Supplies(S, nlKey, result) &&
      Supplies(S, niKey, result) && Supplies(S, cvKey, result)
    }

    /** Every owned entry of every component of `result` becomes the water
        content at the same entry of the five dependency fields. */
    method EvaluateField(S: map<Key, CompositeVector<real>>, result: CompositeVector<real>)
      requires Valid() && result.Valid() && Readable(S, result)
      modifies result.cell, result.face
      ensures forall i :: 0 <= i < result.ownedCells ==>
        result.cell[i] == model.formulas.waterContent(S[phiKey].cell[i], S[slKey].cell[i],
                                                      S[nlKey].cell[i], S[niKey].cell[i], S[cvKey].cell[i])
      ensures forall i :: 0 <= i < result.ownedFaces ==>
        result.face[i] == model.formulas.waterContent(S[phiKey].face[i], S[slKey].face[i],
                                                      S[nlKey].face[i], S[niKey].face[i], S[cvKey].face[i])
      ensures forall i :: result.ownedCells <= i < result.cell.Length ==> result.cell[i] == old(result.cell[i])
      ensures forall i :: result.ownedFaces <= i < result.face.Length ==> result.face[i] == old(result.face[i])
    {
      EvaluateWith(S, result, model.formulas.waterContent);
    }

    /** Fills `result` pointwise with `f` of the five dependency fields. */
    method EvaluateWith(S: map<Key, CompositeVector<real>>, result: CompositeVector<real>, f: Formula)
      requires Valid() && result.Valid() && Readable(S, result)
      modifies result.cell, result.face
      ensures forall i :: 0 <= i < result.ownedCells ==>
        result.cell[i] == f(S[phiKey].cell[i], S[slKey].cell[i], S[nlKey].cell[i], S[niKey].cell[i], S[cvKey].cell[i])
      ensures forall i :: 0 <= i < result.ownedFaces ==>
        result.face[i] == f(S[phiKey].face[i], S[slKey].face[i], S[nlKey].face[i], S[niKey].face[i], S[cvKey].face[i])
      ensures forall i :: result.ownedCells <= i < result.cell.Length ==> result.cell[i] == old(result.cell[i])
      ensures forall i :: result.ownedFaces <= i < result.face.Length ==> result.face[i] == old(result.face[i])
    {
      var phi, sl, nl, ni, cv := S[phiKey], S[slKey], S[nlKey], S[niKey], S[cvKey];
      FillPointwise(result.cell, result.ownedCells, phi.cell, sl.cell, nl.cell, ni.cell, cv.cell, f);
      FillPointwise(result.face, result.ownedFaces, phi.face, sl.face, nl.face, ni.face, cv.face, f);
    }

    /** A derivative with respect to a dependency fills `result` pointwise
        with that partial derivative; a request for any other key is an
        assertion failure and writes nothing. */
    method EvaluateFieldPartialDerivative(S: map<Key, CompositeVector<real>>, wrt: Key,
                                          result: CompositeVector<real>) returns (r: Outcome)
      requires Valid() && result.Valid() && Readable(S, result)
      modifies result.cell, result.face
      ensures Dispatch(wrt).None? ==>
        r == Fail(AssertionFailedMessage) &&
        result.cell[..] == old(result.cell[..]) && result.face[..] == old(result.face[..])
      ensures Dispatch(wrt).Some? ==> r == Pass
      ensures Dispatch(wrt).Some? ==>
        var f := model.Partial(Dispatch(wrt).value);
        (forall i :: 0 <= i < result.ownedCells ==>
          result.cell[i] == f(S[phiKey].cell[i], S[slKey].cell[i], S[nlKey].cell[i], S[niKey].cell[i], S[cvKey].cell[i])) &&
        (forall i :: 0 <= i < result.ownedFaces ==>
          result.face[i] == f(S[phiKey].face[i], S[slKey].face[i], S[nlKey].face[i], S[niKey].face[i], S[cvKey].face[i])) &&
        (forall i :: result.ownedCells <= i < result.cell.Length ==> result.cell[i] == old(result.cell[i])) &&
        (forall i :: result.ownedFaces <= i < result.face.Length ==> result.face[i] == old(result.face[i]))
    {
      var d := Dispatch(wrt);
      if d.None? {
        return Fail(AssertionFailedMessage);
      }
      EvaluateWith(S, result, model.Partial(d.value));
      return Pass;
    }
  }
}
