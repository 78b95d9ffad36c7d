/** Bookkeeping of the Richards flow process kernel: choosing the upwinding
    of the relative permeability, the boundary-condition table, the face
    values of pressure, the post-processing of the numerical relative
    permeability and the step-size decision after a time step. The matrix
    work (MFD mass and stiffness matrices, flux derivation), the upwinding
    classes' own update and the BDF1 integrator are foreign calls. */
module Richards {
  import opened Wrappers
  import opened Fields
  import opened ParameterLists

  // ---------------------------------------------------------------------
  // Upwinding selection
  // ---------------------------------------------------------------------

  datatype UpwindMethod = UpwindGravity | CellCentered | UpwindDarcyFlux | ArithmeticMean

  /** The upwinding the kernel runs and whether its operators are symmetric. */
  datatype Upwinding = Upwinding(krelMethod: UpwindMethod, symmetric: bool)

  const DefaultUpwindingName: string := "upwind with gravity"

  /** The configuration name of each upwinding variant. */
  function UpwindingName(m: UpwindMethod): string {
    match m
    case UpwindGravity => "upwind with gravity"
    case CellCentered => "cell centered"
    case UpwindDarcyFlux => "upwind with Darcy flux"
    case ArithmeticMean => "arithmetic mean"
  }

  function UnknownUpwindingMessage(name: string): string {
    "Richards FLow PK has no upwinding method named: " + name
  }

  /** The "relative permeability method" entry, defaulting to upwinding with gravity. */
  function ConfiguredUpwindingName(plist: ParameterList): string {
    plist.GetString("relative permeability method", DefaultUpwindingName)
  }

  /** Maps a configuration name to its upwinding; only the four known names
      are accepted, and only the cell-centered scheme is symmetric. */
  function SelectUpwinding(name: string): (r: Result<Upwinding>)
    ensures r.Ok? <==> exists m: UpwindMethod :: UpwindingName(m) == name
    ensures r.Ok? ==> UpwindingName(r.value.krelMethod) == name
    ensures r.Ok? ==> (r.value.symmetric <==> r.value.krelMethod == CellCentered)
    ensures r.Err? ==> r.error == UnknownUpwindingMessage(name)
  {
    if name == "upwind with gravity" then
      assert UpwindingName(UpwindGravity) == name;
      Ok(Upwinding(UpwindGravity, false))
    else if name == "cell centered" then
      assert UpwindingName(CellCentered) == name;
      Ok(Upwinding(CellCentered, true))
    else if name == "upwind with Darcy flux" then
      assert UpwindingName(UpwindDarcyFlux) == name;
      Ok(Upwinding(UpwindDarcyFlux, false))
    else if name == "arithmetic mean" then
      assert UpwindingName(ArithmeticMean) == name;
      Ok(Upwinding(ArithmeticMean, false))
    else
      Err(UnknownUpwindingMessage(name))
  }

  /** Every variant is selected by its own name, so selection is total over
      the four names and the names are pairwise distinct. */
  lemma SelectUpwindingByName(m: UpwindMethod)
    ensures SelectUpwinding(UpwindingName(m)) == Ok(Upwinding(m, m == CellCentered))
  {
  }

  /** Without a configured method the kernel upwinds with gravity. */
  lemma DefaultUpwindingIsGravity(plist: ParameterList)
    requires "relative permeability method" !in plist.strings
    ensures SelectUpwinding(ConfiguredUpwindingName(plist)) == Ok(Upwinding(UpwindGravity, false))
  {
  }

  // ---------------------------------------------------------------------
  // Face values from cell values
  // ---------------------------------------------------------------------

  ghost predicate CellIdsIn(ids: seq<nat>, ncells: nat) {
    forall k :: 0 <= k < |ids| ==> ids[k] < ncells
  }

  /** The sum of the cell values at `ids`, accumulated in list order. */
  function CellSum(vals: seq<real>, ids: seq<nat>): real
    requires CellIdsIn(ids, |vals|)
  {
    if |ids| == 0 then 0.0 else CellSum(vals, ids[..|ids| - 1]) + vals[ids[|ids| - 1]]
  }

  /** Cells that all hold the value v sum to v times their count. */
  lemma {:induction false} UniformCellSum(vals: seq<real>, ids: seq<nat>, v: real)
    requires CellIdsIn(ids, |vals|)
    ensures (forall k :: 0 <= k < |ids| ==> vals[ids[k]] == v) ==> CellSum(vals, ids) == (|ids| as real) * v
  {
    if |ids| != 0 {
      var n := |ids| - 1;
      UniformCellSum(vals, ids[..n], v);
      if forall k :: 0 <= k < |ids| ==> vals[ids[k]] == v {
        assert forall k :: 0 <= k < n ==> ids[..n][k] == ids[k];
        assert (n as real) * v + v == (|ids| as real) * v;
      }
    }
  }

  /** The arithmetic mean of the cell values at `ids`; cells that all hold
      the same value have that value as their mean. */
  function CellMean(vals: seq<real>, ids: seq<nat>): (r: real)
    requires 1 <= |ids| && CellIdsIn(ids, |vals|)
    ensures (forall k :: 0 <= k < |ids| ==> vals[ids[k]] == vals[ids[0]]) ==> r == vals[ids[0]]
  {
    UniformCellSum(vals, ids, vals[ids[0]]);
    CellSum(vals, ids) / (|ids| as real)
  }

  /** The inner loop of the face-value derivation: sums the cell values of
      the cells adjacent to one face. */
  method SumCellValues(cellValues: array<real>, ids: seq<nat>) returns (s: real)
    requires CellIdsIn(ids, cellValues.Length)
    ensures s == CellSum(cellValues[..], ids)
  {
    s := 0.0;
    var n := 0;
    while n != |ids|
      invariant 0 <= n <= |ids|
      invariant s == CellSum(cellValues[..], ids[..n])
    {
      assert ids[..n + 1][..n] == ids[..n];
      s := s + cellValues[ids[n]];
      n := n + 1;
    }
    assert ids[..n] == ids;
  }

  /** Every owned face value of `pres` becomes the mean of the cell values of
      its adjacent cells; cells and ghost faces are untouched. */
  method DeriveFaceValuesFromCellValues(mesh: Mesh, pres: CompositeVector<real>)
    requires pres.Valid()
    requires mesh.FacesHaveCells(pres.ownedFaces, pres.cell.Length)
    modifies pres.face
    ensures forall f :: 0 <= f < pres.ownedFaces ==>
      pres.face[f] == CellMean(pres.cell[..], mesh.faceCells[f])
    ensures forall f :: pres.ownedFaces <= f < pres.face.Length ==> pres.face[f] == old(pres.face[f])
  {
    var f := 0;
    while f != pres.ownedFaces
      invariant 0 <= f <= pres.ownedFaces
      invariant forall g :: 0 <= g < f ==> pres.face[g] == CellMean(pres.cell[..], mesh.faceCells[g])
      invariant forall g :: f <= g < pres.face.Length ==> pres.face[g] == old(pres.face[g])
    {
      var cells := mesh.faceCells[f];
      var faceValue := SumCellValues(pres.cell, cells);
      pres.face[f] := faceValue / (|cells| as real);
      f := f + 1;
    }
  }

  /** Bounds on the cell values bound their sum. */
  lemma {:induction false} CellSumBounds(vals: seq<real>, ids: seq<nat>, lo: real, hi: real)
    requires CellIdsIn(ids, |vals|)
    requires forall k :: 0 <= k < |ids| ==> lo <= vals[ids[k]] <= hi
    ensures (|ids| as real) * lo <= CellSum(vals, ids) <= (|ids| as real) * hi
  {
    if |ids| != 0 {
      var n := |ids| - 1;
      CellSumBounds(vals, ids[..n], lo, hi);
      var prefix := CellSum(vals, ids[..n]);
      var last := vals[ids[n]];
      assert CellSum(vals, ids) == prefix + last;
      assert lo <= last <= hi;
      assert (n as real) * lo <= prefix <= (n as real) * hi;
      assert (n as real) * lo + lo == (|ids| as real) * lo;
      assert (n as real) * hi + hi == (|ids| as real) * hi;
    }
  }

  /** A quotient by a positive count of a sum within count-scaled bounds
      lies within the bounds. */
  lemma QuotientBetween(s: real, n: real, lo: real, hi: real)
    requires 0.0 < n && n * lo <= s <= n * hi
    ensures lo <= s / n <= hi
  {
    var m := s / n;
    assert m * n == s;
    assert (m - lo) * n == s - n * lo;
    assert (hi - m) * n == n * hi - s;
  }

  /** A derived face value lies between the smallest and the largest value
      of its adjacent cells. */
  lemma FaceMeanBetweenCells(vals: seq<real>, ids: seq<nat>, lo: real, hi: real)
    requires 1 <= |ids| && CellIdsIn(ids, |vals|)
    requires forall k :: 0 <= k < |ids| ==> lo <= vals[ids[k]] <= hi
    ensures lo <= CellMean(vals, ids) <= hi
  {
    CellSumBounds(vals, ids, lo, hi);
    QuotientBetween(CellSum(vals, ids), |ids| as real, lo, hi);
  }

  /** A boundary face takes its single cell's value; an interior face the
      average of its two cells. */
  lemma FaceMeanOfOneOrTwoCells(vals: seq<real>, a: nat, b: nat)
    requires a < |vals| && b < |vals|
    ensures CellMean(vals, [a]) == vals[a]
    ensures CellMean(vals, [a, b]) == (vals[a] + vals[b]) / 2.0
  {
    assert [a][..0] == [];
    assert CellSum(vals, [a]) == CellSum(vals, []) + vals[a];
    assert [a, b][..1] == [a];
    assert CellSum(vals, [a, b]) == CellSum(vals, [a]) + vals[b];
  }

  /** A column of three cells with pressures 1, 2, 3 and four faces: the
      interior faces get 1.5 and 2.5, the boundary faces 1 and 3. */
  lemma ThreeCellColumnFaceValues()
    ensures CellMean([1.0, 2.0, 3.0], [0]) == 1.0
    ensures CellMean([1.0, 2.0, 3.0], [0, 1]) == 1.5
    ensures CellMean([1.0, 2.0, 3.0], [1, 2]) == 2.5
    ensures CellMean([1.0, 2.0, 3.0], [2]) == 3.0
  {
  }

  // ---------------------------------------------------------------------
  // Relative permeability post-processing
  // ---------------------------------------------------------------------

  const CutTimeStepMessage: string := "Cut time step"
  const BdfFailedMessage: string := "BDF time step failed"

  /** Some owned cell or owned face entry is NaN. */
  ghost predicate HasOwnedNaN(v: CompositeVector<Double>)
    reads v.cell, v.face
  {
    (exists c :: 0 <= c < v.ownedCells && c < v.cell.Length && v.cell[c].NaN?) ||
    (exists f :: 0 <= f < v.ownedFaces && f < v.face.Length && v.face[f].NaN?)
  }

  /** The two NaN scans, over owned cells and then owned faces. */
  method ContainsNaN(v: CompositeVector<Double>) returns (found: bool)
    requires v.Valid()
    ensures found <==> HasOwnedNaN(v)
  {
    var c := 0;
    while c != v.ownedCells
      invariant 0 <= c <= v.ownedCells
      invariant forall j :: 0 <= j < c ==> v.cell[j].Num?
    {
      if v.cell[c].NaN? {
        return true;
      }
      c := c + 1;
    }
    var f := 0;
    while f != v.ownedFaces
      invariant 0 <= f <= v.ownedFaces
      invariant forall j :: 0 <= j < f ==> v.face[j].Num?
    {
      if v.face[f].NaN? {
        return true;
      }
      f := f + 1;
    }
    return false;
  }

  /** Every owned face with fewer than two adjacent cells takes the
      relative permeability of its (first) cell; the other faces keep the
      upwinded value. */
  method PatchBoundaryFaces(mesh: Mesh, relPerm: CompositeVector<real>, numRelPerm: CompositeVector<Double>)
    requires numRelPerm.Valid()
    requires mesh.FacesHaveCells(numRelPerm.ownedFaces, relPerm.cell.Length)
    modifies numRelPerm.face
    ensures forall f :: 0 <= f < numRelPerm.ownedFaces ==>
      numRelPerm.face[f] == if |mesh.faceCells[f]| < 2 then Num(relPerm.cell[mesh.faceCells[f][0]])
                            else old(numRelPerm.face[f])
    ensures forall f :: numRelPerm.ownedFaces <= f < numRelPerm.face.Length ==> numRelPerm.face[f] == old(numRelPerm.face[f])
  {
    var f := 0;
    while f != numRelPerm.ownedFaces
      invariant 0 <= f <= numRelPerm.ownedFaces
      invariant forall g :: 0 <= g < f ==>
        numRelPerm.face[g] == if |mesh.faceCells[g]| < 2 then Num(relPerm.cell[mesh.faceCells[g][0]])
                              else old(numRelPerm.face[g])
      invariant forall g :: f <= g < numRelPerm.face.Length ==> numRelPerm.face[g] == old(numRelPerm.face[g])
    {
      var cells := mesh.faceCells[f];
      if |cells| < 2 {
        numRelPerm.face[f] := Num(relPerm.cell[cells[0]]);
      }
      f := f + 1;
    }
  }

  /** Multiplies every owned cell value by `nLiq / visc` of that cell. */
  method ScaleCells(nLiq: CompositeVector<real>, visc: CompositeVector<real>, numRelPerm: CompositeVector<Double>)
    requires numRelPerm.Valid()
    requires numRelPerm.ownedCells <= nLiq.cell.Length && numRelPerm.ownedCells <= visc.cell.Length
    requires forall c :: 0 <= c < numRelPerm.ownedCells ==> visc.cell[c] != 0.0 && numRelPerm.cell[c].Num?
    modifies numRelPerm.cell
    ensures forall c :: 0 <= c < numRelPerm.ownedCells ==>
      numRelPerm.cell[c] == Num(old(numRelPerm.cell[c]).value * (nLiq.cell[c] / visc.cell[c]))
    ensures forall c :: numRelPerm.ownedCells <= c < numRelPerm.cell.Length ==> numRelPerm.cell[c] == old(numRelPerm.cell[c])
  {
    var c := 0;
    while c != numRelPerm.ownedCells
      invariant 0 <= c <= numRelPerm.ownedCells
      invariant forall j :: 0 <= j < c ==>
        numRelPerm.cell[j] == Num(old(numRelPerm.cell[j]).value * (nLiq.cell[j] / visc.cell[j]))
      invariant forall j :: c <= j < numRelPerm.cell.Length ==> numRelPerm.cell[j] == old(numRelPerm.cell[j])
    {
      numRelPerm.cell[c] := Num(numRelPerm.cell[c].value * (nLiq.cell[c] / visc.cell[c]));
      c := c + 1;
    }
  }

  /** Runs after the upwinding has filled `numRelPerm`: a NaN in an owned
      entry cuts the time step; otherwise every owned face with fewer than
      two cells takes the rel perm of its cell and every owned cell is
      scaled by molar density over viscosity. */
  method UpdatePermeabilityData(mesh: Mesh, relPerm: CompositeVector<real>,
                                nLiq: CompositeVector<real>, visc: CompositeVector<real>,
                                numRelPerm: CompositeVector<Double>) returns (r: Outcome)
    requires numRelPerm.Valid()
    requires mesh.FacesHaveCells(numRelPerm.ownedFaces, relPerm.cell.Length)
    requires numRelPerm.ownedCells <= nLiq.cell.Length && numRelPerm.ownedCells <= visc.cell.Length
    requires forall c :: 0 <= c < numRelPerm.ownedCells ==> visc.cell[c] != 0.0
    modifies numRelPerm.cell, numRelPerm.face
    ensures r.Fail? <==> old(HasOwnedNaN(numRelPerm))
    ensures r.Fail? ==> r.error == CutTimeStepMessage
    ensures r.Fail? ==> numRelPerm.cell[..] == old(numRelPerm.cell[..]) && numRelPerm.face[..] == old(numRelPerm.face[..])
    ensures r.Pass? ==> forall c :: 0 <= c < numRelPerm.ownedCells ==>
      old(numRelPerm.cell[c]).Num? &&
      numRelPerm.cell[c] == Num(old(numRelPerm.cell[c]).value * (nLiq.cell[c] / visc.cell[c]))
    ensures r.Pass? ==> forall f :: 0 <= f < numRelPerm.ownedFaces ==>
      numRelPerm.face[f] == if |mesh.faceCells[f]| < 2 then Num(relPerm.cell[mesh.faceCells[f][0]])
                            else old(numRelPerm.face[f])
    ensures r.Pass? ==> !HasOwnedNaN(numRelPerm)
    ensures forall c :: numRelPerm.ownedCells <= c < numRelPerm.cell.Length ==> numRelPerm.cell[c] == old(numRelPerm.cell[c])
    ensures forall f :: numRelPerm.ownedFaces <= f < numRelPerm.face.Length ==> numRelPerm.face[f] == old(numRelPerm.face[f])
  {
    var bad := ContainsNaN(numRelPerm);
    if bad {
      return Fail(CutTimeStepMessage);
    }
    PatchBoundaryFaces(mesh, relPerm, numRelPerm);
    ScaleCells(nLiq, visc, numRelPerm);
    return Pass;
  }

  // ---------------------------------------------------------------------
  // Time-step control
  // ---------------------------------------------------------------------

  /** The failures after which a smaller step is tried. */
  predicate IsRetryable(message: string) {
    message == BdfFailedMessage || message == CutTimeStepMessage
  }

  /** The configuration failures of setup and initialisation are not among
      the messages after which `advance` retries with a smaller step. */
  lemma ConfigurationFailuresAreFatal(name: string)
    ensures !IsRetryable(UnknownUpwindingMessage(name))
    ensures !IsRetryable(NoInitialConditionMessage)
    ensures !IsRetryable(MissingParameterMessage(name))
    ensures !IsRetryable(MissingSublistMessage(name))
  {
    assert MissingParameterMessage(name)[0] == 'm';
    assert MissingSublistMessage(name)[0] == 'm';
  }

  /** A NaN in the relative permeability is a retryable failure. */
  lemma PermeabilityFailureIsRetryable()
    ensures IsRetryable(CutTimeStepMessage)
  {
  }

  /** The step size proposed after a retryable failure of a step of size h. */
  function RetryStepSize(h: real, reductionFactor: real): (r: real)
    ensures 0.0 < h && 0.0 < reductionFactor < 1.0 ==> 0.0 < r < h
    ensures reductionFactor == 1.0 ==> r == h
  {
    h * reductionFactor
  }

  /** The recommendation after a successful step of size h, where the
      integrator suggests dtSolver and dt was the previous recommendation.
      It never falls below the integrator's suggestion, and the previous
      recommendation is kept only when the suggestion lies in [h, dt). */
  function StepSizeAfterSuccess(dt: real, h: real, dtSolver: real): (r: real)
    ensures r >= dtSolver
    ensures h <= dtSolver < dt ==> r == dt
    ensures (dtSolver >= dt || dtSolver < h) ==> r == dtSolver
  {
    if dtSolver < dt && dtSolver >= h then dt else dtSolver
  }

  /** What the BDF1 integrator's `time_step(h, u)` did: returned a suggested
      next step size or threw an error with a message. */
  datatype StepOutcome = Stepped(dtSolver: real) | Threw(message: string)

  // ---------------------------------------------------------------------
  // The process kernel
  // ---------------------------------------------------------------------

  datatype BcMarker = BcNull | BcDirichlet | BcFlux

  const NoInitialConditionMessage: string := "Richards Flow PK has no initial condition parameter list."

  function MissingParameterMessage(name: string): string {
    "missing parameter: " + name
  }

  function MissingSublistMessage(name: string): string {
    "missing sublist: " + name
  }

  class RichardsFlow {
    const plist: ParameterList
    const upwinding: Upwinding
    var dt: real
    var atol: real
    var rtol: real
    var timeStepReductionFactor: real
    var bcMarkers: array<BcMarker>
    var bcValues: array<real>
    /** The step sizes of the solutions committed so far. */
    ghost var committedSteps: seq<real>

    ghost predicate Valid()
      reads this
    {
      bcMarkers.Length == bcValues.Length
    }

    constructor (plist: ParameterList, upwinding: Upwinding)
      ensures Valid()
      ensures this.plist == plist && this.upwinding == upwinding
      ensures bcMarkers.Length == 0 && committedSteps == []
    {
      this.plist := plist;
      this.upwinding := upwinding;
      bcMarkers := new BcMarker[0];
      bcValues := new real[0];
      committedSteps := [];
    }

    /** Construction: requires the "boundary conditions" sublist, then
        chooses the upwinding from the configuration, failing on an unknown
        method name. */
    static method Create(plist: ParameterList) returns (r: Result<RichardsFlow>)
      ensures !plist.IsSublist("boundary conditions") ==>
        r == Err(MissingSublistMessage("boundary conditions"))
      ensures plist.IsSublist("boundary conditions") && SelectUpwinding(ConfiguredUpwindingName(plist)).Err? ==>
        r == Err(SelectUpwinding(ConfiguredUpwindingName(plist)).error)
      ensures plist.IsSublist("boundary conditions") && SelectUpwinding(ConfiguredUpwindingName(plist)).Ok? ==>
        r.Ok? && fresh(r.value) && r.value.Valid() && r.value.plist == plist &&
        r.value.upwinding == SelectUpwinding(ConfiguredUpwindingName(plist)).value &&
        r.value.bcMarkers.Length == 0 && r.value.committedSteps == []
    {
      if !plist.IsSublist("boundary conditions") {
        return Err(MissingSublistMessage("boundary conditions"));
      }
      var u := SelectUpwinding(ConfiguredUpwindingName(plist));
      if u.Err? {
        return Err(u.error);
      }
      var pk := new RichardsFlow(plist, u.value);
      return Ok(pk);
    }

    /** The table has `nfaces` entries and is the result of resizing the
        table `markers`/`values`: old entries kept, new ones NULL and 0.0. */
    ghost predicate ResizedFrom(markers: seq<BcMarker>, values: seq<real>, nfaces: nat)
      reads this, bcMarkers, bcValues
    {
      bcMarkers.Length == nfaces && bcValues.Length == nfaces &&
      forall i :: 0 <= i < nfaces ==>
        bcMarkers[i] == (if i < |markers| then markers[i] else BcNull) &&
        bcValues[i] == (if i < |values| then values[i] else 0.0)
    }

    /** `bc_markers_.resize(nfaces, NULL)` and `bc_values_.resize(nfaces, 0.0)`;
        from the empty table of a new kernel every entry is NULL and 0.0. */
    method ResizeBoundaryTable(nfaces: nat)
      requires Valid()
      modifies this`bcMarkers, this`bcValues
      ensures Valid() && fresh(bcMarkers) && fresh(bcValues)
      ensures ResizedFrom(old(bcMarkers[..]), old(bcValues[..]), nfaces)
      ensures old(bcMarkers.Length) == 0 ==>
        forall i :: 0 <= i < nfaces ==> bcMarkers[i] == BcNull && bcValues[i] == 0.0
    {
      bcMarkers := Resized(bcMarkers, nfaces, BcNull);
      bcValues := Resized(bcValues, nfaces, 0.0);
    }

    /** Sets the initial step size, resizes the boundary-condition table to
        `nfaces` used faces, then (given an initial condition) derives the
        face pressures, resets the numerical rel perm to 1 and reads the
        tolerances and the step reduction factor. */
    method Initialize(nfaces: nat, mesh: Mesh, pres: CompositeVector<real>,
                      numRelPerm: CompositeVector<Double>) returns (r: Outcome)
      requires Valid() && pres.Valid() && numRelPerm.Valid()
      requires mesh.FacesHaveCells(pres.ownedFaces, pres.cell.Length)
      modifies this, pres.face, numRelPerm.cell, numRelPerm.face
      ensures Valid() && committedSteps == old(committedSteps)
      ensures dt == plist.GetReal("initial time step", 1.0)
      ensures fresh(bcMarkers) && fresh(bcValues)
      ensures ResizedFrom(old(bcMarkers[..]), old(bcValues[..]), nfaces)
      ensures old(bcMarkers.Length) == 0 ==>
        forall i :: 0 <= i < nfaces ==> bcMarkers[i] == BcNull && bcValues[i] == 0.0
      ensures !plist.IsSublist("initial condition") ==>
        r == Fail(NoInitialConditionMessage) &&
        pres.face[..] == old(pres.face[..]) &&
        numRelPerm.cell[..] == old(numRelPerm.cell[..]) && numRelPerm.face[..] == old(numRelPerm.face[..]) &&
        atol == old(atol) && rtol == old(rtol)
      ensures r.Fail? ==> timeStepReductionFactor == old(timeStepReductionFactor)
      ensures plist.IsSublist("initial condition") ==>
        (forall f :: 0 <= f < pres.ownedFaces ==> pres.face[f] == CellMean(pres.cell[..], mesh.faceCells[f])) &&
        (forall f :: pres.ownedFaces <= f < pres.face.Length ==> pres.face[f] == old(pres.face[f])) &&
        (forall i :: 0 <= i < numRelPerm.cell.Length ==> numRelPerm.cell[i] == Num(1.0)) &&
        (forall i :: 0 <= i < numRelPerm.face.Length ==> numRelPerm.face[i] == Num(1.0)) &&
        atol == plist.GetReal("absolute error tolerance", 1.0) &&
        rtol == plist.GetReal("relative error tolerance", 1.0)
      ensures plist.IsSublist("initial condition") && plist.GetBool("strongly coupled PK", false) ==>
        r == Pass && timeStepReductionFactor == old(timeStepReductionFactor)
      ensures plist.IsSublist("initial condition") && !plist.GetBool("strongly coupled PK", false) ==>
        var ti := plist.Sublist("time integrator");
        if "time step reduction factor" in ti.reals
        then r == Pass && timeStepReductionFactor == ti.reals["time step reduction factor"]
        else r == Fail(MissingParameterMessage("time step reduction factor"))
    {
      dt := plist.GetReal("initial time step", 1.0);
      ResizeBoundaryTable(nfaces);

      if !plist.IsSublist("initial condition") {
        return Fail(NoInitialConditionMessage);
      }

      DeriveFaceValuesFromCellValues(mesh, pres);
      PutScalar(numRelPerm, Num(1.0));

      atol := plist.GetReal("absolute error tolerance", 1.0);
      rtol := plist.GetReal("relative error tolerance", 1.0);

      if !plist.GetBool("strongly coupled PK", false) {
        var ti := plist.Sublist("time integrator");
        if "time step reduction factor" !in ti.reals {
          return Fail(MissingParameterMessage("time step reduction factor"));
        }
        timeStepReductionFactor := ti.reals["time step reduction factor"];
      }
      return Pass;
    }

    /** Rebuilds the table from the boundary functions evaluated at the
        current time: every face is reset, then the pressure (Dirichlet)
        faces are written, then the flux faces, which therefore win. */
    method UpdateBoundaryConditions(pressureBc: map<nat, real>, fluxBc: map<nat, real>)
      requires Valid()
      requires forall f :: f in pressureBc ==> f < bcMarkers.Length
      requires forall f :: f in fluxBc ==> f < bcMarkers.Length
      modifies bcMarkers, bcValues
      ensures forall f: nat :: f < bcMarkers.Length && f in fluxBc ==>
        bcMarkers[f] == BcFlux && bcValues[f] == fluxBc[f]
      ensures forall f: nat :: f < bcMarkers.Length && f !in fluxBc && f in pressureBc ==>
        bcMarkers[f] == BcDirichlet && bcValues[f] == pressureBc[f]
      ensures forall f: nat :: f < bcMarkers.Length && f !in fluxBc && f !in pressureBc ==>
        bcMarkers[f] == BcNull && bcValues[f] == 0.0
    {
      var n := 0;
      while n != bcMarkers.Length
        invariant 0 <= n <= bcMarkers.Length
        invariant forall g :: 0 <= g < n ==> bcMarkers[g] == BcNull && bcValues[g] == 0.0
      {
        bcMarkers[n] := BcNull;
        bcValues[n] := 0.0;
        n := n + 1;
      }

      var todo := pressureBc.Keys;
      while todo != {}
        invariant todo <= pressureBc.Keys
        invariant forall g: nat :: g < bcMarkers.Length && g in pressureBc && g !in todo ==>
          bcMarkers[g] == BcDirichlet && bcValues[g] == pressureBc[g]
        invariant forall g: nat :: g < bcMarkers.Length && (g !in pressureBc || g in todo) ==>
          bcMarkers[g] == BcNull && bcValues[g] == 0.0
        decreases todo
      {
        var f :| f in todo;
        bcMarkers[f] := BcDirichlet;
        bcValues[f] := pressureBc[f];
        todo := todo - {f};
      }

      todo := fluxBc.Keys;
      while todo != {}
        invariant todo <= fluxBc.Keys
        invariant forall g: nat :: g < bcMarkers.Length && g in fluxBc && g !in todo ==>
          bcMarkers[g] == BcFlux && bcValues[g] == fluxBc[g]
        invariant forall g: nat :: g < bcMarkers.Length && (g !in fluxBc || g in todo) && g in pressureBc ==>
          bcMarkers[g] == BcDirichlet && bcValues[g] == pressureBc[g]
        invariant forall g: nat :: g < bcMarkers.Length && (g !in fluxBc || g in todo) && g !in pressureBc ==>
          bcMarkers[g] == BcNull && bcValues[g] == 0.0
        decreases todo
      {
        var f :| f in todo;
        bcMarkers[f] := BcFlux;
        bcValues[f] := fluxBc[f];
        todo := todo - {f};
      }
    }

    /** Writes the Dirichlet values into the owned face entries of the
        pressure; every other entry is unchanged. */
    method ApplyBoundaryConditions(pres: CompositeVector<real>)
      requires Valid() && pres.Valid()
      requires pres.ownedFaces <= bcMarkers.Length
      requires pres.face != bcValues
      modifies pres.face
      ensures forall f :: 0 <= f < pres.ownedFaces ==>
        pres.face[f] == if bcMarkers[f] == BcDirichlet then bcValues[f] else old(pres.face[f])
      ensures forall f :: pres.ownedFaces <= f < pres.face.Length ==> pres.face[f] == old(pres.face[f])
    {
      var f := 0;
      while f != pres.ownedFaces
        invariant 0 <= f <= pres.ownedFaces
        invariant forall g :: 0 <= g < f ==>
          pres.face[g] == if bcMarkers[g] == BcDirichlet then bcValues[g] else old(pres.face[g])
        invariant forall g :: f <= g < pres.face.Length ==> pres.face[g] == old(pres.face[g])
      {
        if bcMarkers[f] == BcDirichlet {
          pres.face[f] := bcValues[f];
        }
        f := f + 1;
      }
    }

    /** One attempt at a step of size h. A retryable failure proposes a
        reduced step and reports failure (true) without committing; any
        other integrator error is rethrown. On success the solution is
        committed; a failure of the commit (`commit`, the outcome of
        `commit_state`) propagates, otherwise the recommendation is updated
        and success (false) is reported. */
    method Advance(h: real, step: StepOutcome, commit: Outcome) returns (r: Result<bool>)
      modifies this`dt, this`committedSteps
      ensures step.Threw? && IsRetryable(step.message) ==>
        r == Ok(true) && dt == RetryStepSize(h, timeStepReductionFactor) &&
        committedSteps == old(committedSteps)
      ensures step.Threw? && !IsRetryable(step.message) ==>
        r == Err(step.message) && dt == old(dt) && committedSteps == old(committedSteps)
      ensures step.Stepped? ==> committedSteps == old(committedSteps) + [h]
      ensures step.Stepped? && commit.Fail? ==> r == Err(commit.error) && dt == old(dt)
      ensures step.Stepped? && commit.Pass? ==>
        r == Ok(false) && dt == StepSizeAfterSuccess(old(dt), h, step.dtSolver)
    {
      match step
      case Threw(message) =>
        if IsRetryable(message) {
          dt := RetryStepSize(h, timeStepReductionFactor);
          return Ok(true);
        } else {
          return Err(message);
        }
      case Stepped(dtSolver) =>
        committedSteps := committedSteps + [h];
        if commit.Fail? {
          return Err(commit.error);
        }
        dt := StepSizeAfterSuccess(dt, h, dtSolver);
        return Ok(false);
    }
  }
}
