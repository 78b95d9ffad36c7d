# Richards flow bookkeeping, overland residual pieces and two algebraic evaluators

This project models the discrete, sequential bookkeeping underneath four parts of the
ATS flow and thermodynamics code and proves properties of it in Dafny. Doubles are
modelled as `real`. The only NaN test in the modelled code is on the numerical relative
permeability, so that is the only field given the `Double = Num(real) | NaN` type.
The cell relative permeability, the liquid molar density and the viscosity that
`UpdatePermeabilityData_` reads are modelled as finite reals. Constitutive formulas
and other foreign code are passed in as functions.

- **Richards flow process kernel** (`richards.dfy`):
  - choosing the relative-permeability upwinding from its configured name;
  - the boundary-condition table (per-face marker and value): its resize in
    `initialize` and its rebuild from the pressure and flux boundary functions;
  - writing Dirichlet values into the face pressures;
  - deriving face pressures as the mean of the adjacent cells;
  - the post-processing of the numerical relative permeability: the NaN check that
    cuts the time step, the boundary-face patch and the scaling by molar density over
    viscosity;
  - the step-size decision of `advance`.
- **Interfrost liquid water-content evaluator** (`interfrost_sl_wc_evaluator.dfy`):
  - the five dependency keys and their defaults;
  - pointwise evaluation of the model;
  - dispatch of partial derivatives by key, where an unknown key is an assertion
    failure;
  - the copy constructor, which shares the model object.
- **Overland flow physics** (`overland_physics.dfy`): pressure plus elevation, the
  accumulation and load terms of the residual, and the reset of the permeability
  tensors.
- **Lake energy evaluator** (`lake_energy_evaluator.dfy`): `E = 1000 * 4184 * T`, its
  constant derivative, and a derivative request for another key that does nothing.

Shared pieces:
- `fields.dfy`: composite vectors, which have a "cell" and a "face" component. Each
  component is an array of owned-then-ghost entries plus the owned count that
  `size()` reports. A cell-only field has an empty face component. The loop "for
  every component" of the evaluators is therefore the cell component, then the face
  component.
- `fields.dfy` also holds the mesh, modelled as the face-to-adjacent-cells lists of
  `face_get_cells`.
- `parameter_lists.dfy`: parameter lists.
- `wrappers.dfy`: results that carry the message of a thrown error. `advance`
  decides what to do by comparing error messages as text.

Parameters stand in for code that is not part of this model:
- the upwinding classes' `Update` (the numerical rel perm arrives already upwinded);
- the BDF1 integrator's `time_step` (a `StepOutcome`: a suggested step size, or an
  error message);
- the outcome of `commit_state`;
- the initial-condition function (the pressure arrives with its initial cell values);
- `Keys::getDomainPrefix`, `Keys::getDomain` and `Keys::readKey`;
- the key set by the generic secondary-evaluator constructor;
- the Interfrost model formulas;
- `rhs_load_value()`.

Three behaviours of the code are worth noting, and the model follows the code in each:
- The two evaluators treat a derivative request for a key that is not a dependency
  differently. The Interfrost evaluator asserts
  (interfrost_sl_wc_evaluator.cc:196-198). The lake energy evaluator has no `else`
  branch (lake_energy_evaluator.cc:66-83): it silently does nothing, and the model
  keeps that.
- A retryable failure is normally turned into a smaller step. In `advance`,
  `commit_state` runs outside the `try`. A "Cut time step" thrown in
  `UpdatePermeabilityData_` during the commit is therefore not caught there; it
  propagates to the caller of `advance`. `Advance` models this through its `commit`
  parameter.
- The retry loop itself is not in `advance`. `advance` only cuts `dt_` and reports
  failure; its caller retries.

## Model

| member | source | states |
|---|---|---|
| `Richards.SelectUpwinding` | src/pks/flow/richards/richards.cc:102-126 | a name is accepted exactly when it is one of the four variant names; the accepted variant is the one with that name; the scheme is symmetric exactly for "cell centered"; any other name fails with the "no upwinding method named" message |
| `Richards.SelectUpwindingByName` | src/pks/flow/richards/richards.cc:104-120 | each of the four variants is selected by its own name, with symmetry only for cell-centered (selection is total over the variants and the names are distinct) |
| `Richards.DefaultUpwindingIsGravity` | src/pks/flow/richards/richards.cc:102 | without a "relative permeability method" entry the kernel upwinds with gravity, non-symmetric |
| `Richards.RichardsFlow.Create` | src/pks/flow/richards/richards.cc:93-126 | construction fails when the "boundary conditions" sublist is missing; otherwise it fails with the selection's message on an unknown method name; otherwise it yields a fresh kernel with that upwinding and an empty boundary-condition table |
| `Fields.Resized` | src/pks/flow/richards/richards.cc:199-200 | `resize(n, fill)`: length n, the old entries kept below the old length, `fill` beyond it |
| `Richards.RichardsFlow.ResizeBoundaryTable` | src/pks/flow/richards/richards.cc:198-200 | both arrays are resized to `nfaces`; starting from the empty table of a new kernel every marker is NULL and every value 0.0 |
| `Richards.RichardsFlow.Initialize` | src/pks/flow/richards/richards.cc:193-253 | sets `dt` from "initial time step" (default 1) and resizes the table; without an "initial condition" sublist it fails with that message after the resize, leaving pressure, rel perm, tolerances and reduction factor untouched; otherwise owned face pressures become cell means, the numerical rel perm becomes 1 everywhere, the tolerances are read (default 1), and unless strongly coupled the reduction factor is read from "time integrator", failing if absent and then keeping its old value |
| `Fields.PutScalar` | src/pks/flow/richards/richards.cc:222 | every entry of both components, ghosts included, becomes the scalar |
| `Richards.UniformCellSum` | src/pks/flow/richards/richards.cc:429-432 | adjacent cells that all hold the same value sum to that value times their count |
| `Richards.CellMean` | src/pks/flow/richards/richards.cc:429-433 | the face value formed from adjacent cells that all hold the same value is that value |
| `Richards.CellSumBounds` | src/pks/flow/richards/richards.cc:429-432 | if every adjacent cell value lies in [lo, hi], their sum lies between count times lo and count times hi |
| `Richards.SumCellValues` | src/pks/flow/richards/richards.cc:429-432 | the accumulated face value equals the sum of the adjacent cells' values |
| `Richards.DeriveFaceValuesFromCellValues` | src/pks/flow/richards/richards.cc:418-435 | every owned face value becomes the arithmetic mean of its adjacent cells' values; ghost faces and all cells are unchanged |
| `Richards.FaceMeanBetweenCells` | src/pks/flow/richards/richards.cc:424-434 | a derived face value lies between the smallest and largest value of its adjacent cells |
| `Richards.FaceMeanOfOneOrTwoCells` | src/pks/flow/richards/richards.cc:427-433 | a boundary face gets its single cell's value; a two-cell face gets the average of the two |
| `Richards.ThreeCellColumnFaceValues` | src/pks/flow/richards/richards.cc:423-434 | on a column of cells with pressures 1, 2, 3 the faces get 1, 1.5, 2.5, 3 |
| `Richards.ContainsNaN` | src/pks/flow/richards/richards.cc:376-389 | the scans find a NaN exactly when some owned cell or owned face entry of the numerical rel perm is NaN |
| `Richards.PatchBoundaryFaces` | src/pks/flow/richards/richards.cc:392-399 | every owned face with fewer than two cells takes the cell rel perm of its first cell; two-cell faces and ghost faces keep their value |
| `Richards.ScaleCells` | src/pks/flow/richards/richards.cc:406-409 | every owned cell value is multiplied by `n_liq / visc` of that cell; ghost cells are unchanged |
| `Richards.UpdatePermeabilityData` | src/pks/flow/richards/richards.cc:363-412 | fails with "Cut time step" exactly when an owned entry is NaN, changing nothing; otherwise boundary faces are patched, cells scaled, and afterwards no owned entry is NaN (a consequence of the other inputs being finite reals); ghost entries never change |
| `Richards.PermeabilityFailureIsRetryable` | src/pks/flow/richards/richards.cc:319-320 | the rel-perm failure message is one after which `advance` cuts the step |
| `Richards.ConfigurationFailuresAreFatal` | src/pks/flow/richards/richards.cc:319-325 | the messages of an unknown upwinding name, a missing initial condition, a missing parameter and a missing sublist are not among those `IsRetryable` accepts; a note on the error taxonomy, since none of them is thrown inside `time_step` |
| `Richards.RetryStepSize` | src/pks/flow/richards/richards.cc:322 | with a positive step and a reduction factor in (0, 1) the retried step is positive and strictly smaller; a factor of 1 keeps it |
| `Richards.StepSizeAfterSuccess` | src/pks/flow/richards/richards.cc:335-341 | the new recommendation never falls below the integrator's suggestion; the old one is kept when the suggestion lies in [h, dt), so a smaller step forced from outside does not reduce it; otherwise the suggestion is taken |
| `Richards.RichardsFlow.Advance` | src/pks/flow/richards/richards.cc:307-344 | a retryable error sets `dt = h * factor`, returns true and commits nothing; another integrator error is rethrown with `dt` unchanged; success commits the step, then a failure of `commit_state` (not caught by `advance`) propagates with `dt` unchanged, or it returns false with `dt` from the step-size rule |
| `Richards.RichardsFlow.UpdateBoundaryConditions` | src/pks/flow/richards/richards.cc:441-459 | a face in the flux set is FLUX with its flux value even if it is also a pressure face; a face only in the pressure set is DIRICHLET with its value; any other face is NULL with 0.0 |
| `Richards.RichardsFlow.ApplyBoundaryConditions` | src/pks/flow/richards/richards.cc:465-473 | an owned face's pressure becomes its table value exactly when its marker is DIRICHLET; all other entries are unchanged |
| `InterfrostSlWc.InterfrostSlWcEvaluator.constructor` | src/pks/flow/constitutive_relations/water_content/interfrost_sl_wc_evaluator.cc:15-76 | each of the five keys is its parameter-list entry or the domain prefix of the evaluator's key plus the field name; the dependency set is exactly the five keys; the model is new |
| `InterfrostSlWc.InterfrostSlWcEvaluator.Copy` | src/pks/flow/constitutive_relations/water_content/interfrost_sl_wc_evaluator.cc:25-32 | the copy has the same five keys, key and dependencies, and the same model object |
| `InterfrostSlWc.InterfrostSlWcEvaluator.Dispatch` | src/pks/flow/constitutive_relations/water_content/interfrost_sl_wc_evaluator.cc:116-198 | a derivative is chosen exactly when the key is a dependency; the chosen dependency is read under that key; keys are tried in the order phi, sl, nl, ni, cv |
| `InterfrostSlWc.InterfrostSlWcEvaluator.DispatchByKey` | src/pks/flow/constitutive_relations/water_content/interfrost_sl_wc_evaluator.cc:116-194 | with five distinct keys, each dependency's key selects that dependency's partial derivative |
| `InterfrostSlWc.FillPointwise` | src/pks/flow/constitutive_relations/water_content/interfrost_sl_wc_evaluator.cc:98-101 | entry i of the output is the formula of entry i of the five inputs, for every i below the count; the rest is unchanged |
| `InterfrostSlWc.InterfrostSlWcEvaluator.EvaluateWith` | src/pks/flow/constitutive_relations/water_content/interfrost_sl_wc_evaluator.cc:89-102 | both components of the result are filled pointwise from the five dependency fields read from the state under their keys |
| `InterfrostSlWc.InterfrostSlWcEvaluator.EvaluateField` | src/pks/flow/constitutive_relations/water_content/interfrost_sl_wc_evaluator.cc:80-103 | every owned entry of every component becomes the water content of the same entry of phi, sl, nl, ni, cv; ghost entries unchanged |
| `InterfrostSlWc.InterfrostSlWcEvaluator.EvaluateFieldPartialDerivative` | src/pks/flow/constitutive_relations/water_content/interfrost_sl_wc_evaluator.cc:107-199 | a dependency key fills the result pointwise with the matching partial derivative; any other key is an assertion failure that writes nothing |
| `OverlandPhysics.OverlandFlow.AddElevation` | src/pks/flow/overland/overland_physics.cc:49-66 | every owned cell and owned face of `pres_elev` becomes pressure plus elevation; ghost entries unchanged |
| `OverlandPhysics.OverlandFlow.AddAccumulation` | src/pks/flow/overland/overland_physics.cc:68-81 | every owned cell of `g` grows by `(V1 p1 - V0 p0) / (t_next - t_inter)`; faces and ghost cells unchanged |
| `OverlandPhysics.AccumulationIncrement` | src/pks/flow/overland/overland_physics.cc:78-79 | the increment times the step length is the change of stored `V p` between the two time levels |
| `OverlandPhysics.NoChangeNoAccumulation` | src/pks/flow/overland/overland_physics.cc:78-79 | unchanged volume and pressure give an increment of exactly 0 |
| `OverlandPhysics.AccumulationSign` | src/pks/flow/overland/overland_physics.cc:78-79 | over a forward step the increment is positive exactly when the stored `V p` grew |
| `OverlandPhysics.OverlandFlow.AddLoadValue` | src/pks/flow/overland/overland_physics.cc:83-90 | every owned cell of `g` loses `rhs_load_value * V`; faces and ghost cells unchanged |
| `OverlandPhysics.SetEntry00` | src/pks/flow/overland/overland_physics.cc:152 | entry (0,0) becomes the value; the shape and every other entry are kept |
| `OverlandPhysics.OverlandFlow.SetAbsolutePermeabilityTensor` | src/pks/flow/overland/overland_physics.cc:149-154 | every tensor has entry (0,0) set to 1 and nothing else changed; the array keeps its length |
| `LakeEnergy.Energy` | src/pks/lake_thermo/constitutive_relations/energy/lake_energy_evaluator.cc:58 | the energy `1000 * 4184 * T` is zero exactly at zero temperature and has the sign of the temperature |
| `LakeEnergy.DEnergyDTemperature` | src/pks/lake_thermo/constitutive_relations/energy/lake_energy_evaluator.cc:69-80 | the derivative is the constant 4184000 |
| `LakeEnergy.EnergySlope` | src/pks/lake_thermo/constitutive_relations/energy/lake_energy_evaluator.cc:47-80 | `E(T1) - E(T2) = D * (T1 - T2)` for all temperatures |
| `LakeEnergy.CentredDifferenceIsDerivative` | src/pks/lake_thermo/constitutive_relations/energy/lake_energy_evaluator.cc:47-80 | the centred finite difference of E equals the analytic derivative exactly, for every perturbation |
| `LakeEnergy.FillEnergy` | src/pks/lake_thermo/constitutive_relations/energy/lake_energy_evaluator.cc:55-59 | entry i becomes the energy at temperature entry i, for every i below the count |
| `LakeEnergy.FillConstant` | src/pks/lake_thermo/constitutive_relations/energy/lake_energy_evaluator.cc:77-81 | every entry below the count becomes the constant |
| `LakeEnergy.LakeEnergyEvaluator.constructor` | src/pks/lake_thermo/constitutive_relations/energy/lake_energy_evaluator.cc:17-31 | an empty key defaults to "energy key", then to "surface-energy"; the dependency set is exactly the temperature key read for that key's domain |
| `LakeEnergy.LakeEnergyEvaluator.Copy` | src/pks/lake_thermo/constitutive_relations/energy/lake_energy_evaluator.cc:33-35 | the copy keeps the key, temperature key and dependencies |
| `LakeEnergy.LakeEnergyEvaluator.EvaluateField` | src/pks/lake_thermo/constitutive_relations/energy/lake_energy_evaluator.cc:43-61 | every owned entry of every component becomes `1000 * 4184 * T` of the same entry; ghost entries unchanged |
| `LakeEnergy.LakeEnergyEvaluator.EvaluateFieldPartialDerivative` | src/pks/lake_thermo/constitutive_relations/energy/lake_energy_evaluator.cc:64-84 | for the temperature key every owned entry becomes the constant derivative; for any other key the result is unchanged, with no error |

## Left out

- The mixed finite-difference operators are linear algebra whose implementations are not part of this model. This covers mass and stiffness matrices, flux and velocity derivation, residual assembly, `ApplyDiffusion_` and `AddGravityFluxesToVector_`. It applies to richards.cc:129-139, 231-232, 276-278 and 354, and to overland_physics.cc:21-47.
- The upwinding classes' `Update` (richards.cc:369) is a foreign call. The numerical rel perm is taken as already upwinded.
- BDF1 integrator internals are not modelled. `time_step` is the `StepOutcome` parameter. `commit_solution` is recorded only as the ghost log `committedSteps`. `commit_state` enters only through its outcome.
- Field-store plumbing is not modelled: `SetupPhysicalEvaluators_`, `RequireField` and similar, `set_initialized`, `set_io_vis`, and the pointer-copying transfers `state_to_solution` and `solution_to_state`. `calculate_diagnostics` and the time-stepper's initial state are also left out.
- The construction of `K_` (richards.cc:86-90) is not modelled.
- The boundary-condition factory (richards.cc:94-96) is not modelled; the evaluated boundary functions are `map`s from face to value. Only the missing-sublist error of line 93 is kept, with a fixed message standing in for Teuchos's wording.
- The Richards kernel's own `SetAbsolutePermeabilityTensor_` is defined outside richards.cc and is not part of this model.
- Ghost scatter, MPI rank checks and console output are left out.
- Overland `RelativePermeability_` and `UpdateSecondaryVariables_` are left out. They use `pow`, `sqrt` and a geometric zone test, which are transcendental floating point.
- The Interfrost model formulas and the construction of the model from its sublist are not modelled. The formulas are arbitrary functions.
- `Clone()` is the copy constructor behind a pointer and is not modelled separately.
- Composite vectors are modelled with only the "cell" and "face" components, the only ones the fields of the modelled code have.
- IEEE arithmetic is not modelled: no rounding, and sums are exact whatever their order. Division by zero is excluded by preconditions.
- Teuchos `get` with a default also stores the default in the list; that side effect is not modelled. The wording of Teuchos's error for a missing "time step reduction factor" is not modelled either; a fixed message stands in for it.
- `AMANZI_ASSERT` is modelled as enabled: it aborts, reported as a `Fail` outcome.
- The static factory registration (richards.cc:34) is not modelled.
- `thermal_conductivity_threephase_evaluator.hh` only declares a class; `ImplicitTIBDF2fnBase.hh` is an interface whose one body, the default `is_admissible` (ImplicitTIBDF2fnBase.hh:32-34), returns true; `water_table_evaluator_reg.hh` is a static factory registration. None of them is modelled.
- Richards.UpdatePermeabilityData: requires a nonzero viscosity on every owned cell. The code would then produce an infinity or NaN, which reals cannot express.
- Richards.UpdatePermeabilityData: the cell rel perm, `n_liq` and `visc` are finite reals, so its "no owned NaN afterwards" holds by construction. In the code the NaN scans run before the writes at richards.cc:397 and 408, so a NaN in one of those inputs would reach the numerical rel perm without a "Cut time step".
- Richards.ScaleCells: same nonzero-viscosity precondition as UpdatePermeabilityData.
- OverlandPhysics.OverlandFlow.AddAccumulation: requires `t_next != t_inter`. The code would divide by zero.
- Richards.DeriveFaceValuesFromCellValues: requires every owned face to have at least one adjacent cell. With none, the code divides 0 by 0.
