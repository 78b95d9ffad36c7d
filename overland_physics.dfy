/** Elementwise pieces of the overland-flow residual: the pressure plus
    elevation field, the accumulation and load terms added to the residual
    `g`, and the reset of the absolute permeability tensors. Loops run over
    the owned entities; ghost entries are never written. */
module OverlandPhysics {
  import opened Fields

  /** A permeability tensor as its matrix of entries (a scalar tensor is 1x1). */
  datatype Tensor = Tensor(entries: seq<seq<real>>) {
    predicate HasEntry00() {
      |entries| > 0 && |entries[0]| > 0
    }
  }

  /** `K(0, 0) = v`: the tensor with entry (0,0) replaced by v and every
      other entry and the shape kept. */
  function SetEntry00(t: Tensor, v: real): (r: Tensor)
    requires t.HasEntry00()
    ensures r.HasEntry00() && r.entries[0][0] == v
    ensures |r.entries| == |t.entries|
    ensures forall i :: 0 <= i < |t.entries| ==> |r.entries[i]| == |t.entries[i]|
    ensures forall i, j :: 0 <= i < |t.entries| && 0 <= j < |t.entries[i]| && (i, j) != (0, 0) ==>
      r.entries[i][j] == t.entries[i][j]
  {
    Tensor(t.entries[0 := t.entries[0][0 := v]])
  }

  /** The accumulation increment of one cell: the change of stored water
      volume `V * p` between the two time levels over the time step. */
  function AccumulationIncrement(v0: real, p0: real, v1: real, p1: real, dt: real): (r: real)
    requires dt != 0.0
    ensures r * dt == v1 * p1 - v0 * p0
  {
    (v1 * p1 - v0 * p0) / dt
  }

  /** A cell whose volume and pressure did not change accumulates nothing. */
  lemma NoChangeNoAccumulation(v: real, p: real, dt: real)
    requires dt != 0.0
    ensures AccumulationIncrement(v, p, v, p, dt) == 0.0
  {
  }

  /** The increment is the difference quotient of the stored volume, so it
      is positive exactly when storage grew over a forward step. */
  lemma AccumulationSign(v0: real, p0: real, v1: real, p1: real, dt: real)
    requires dt > 0.0
    ensures AccumulationIncrement(v0, p0, v1, p1, dt) > 0.0 <==> v1 * p1 > v0 * p0
  {
  }

  class OverlandFlow {
    /** The absolute permeability tensors, one per owned cell. */
    const k: array<Tensor>
    /** The value `rhs_load_value()` returns. */
    const rhsLoadValue: real

    constructor (k: array<Tensor>, rhsLoadValue: real)
      ensures this.k == k && this.rhsLoadValue == rhsLoadValue
    {
      this.k := k;
      this.rhsLoadValue := rhsLoadValue;
    }

    /** `pres_elev = pres + elevation` on every owned cell and owned face. */
    method AddElevation(pres: CompositeVector<real>, elevation: CompositeVector<real>,
                        presElev: CompositeVector<real>)
      requires presElev.Valid() && Covers(pres, presElev) && Covers(elevation, presElev)
      modifies presElev.cell, presElev.face
      ensures forall c :: 0 <= c < presElev.ownedCells ==>
        presElev.cell[c] == pres.cell[c] + elevation.cell[c]
      ensures forall f :: 0 <= f < presElev.ownedFaces ==>
        presElev.face[f] == pres.face[f] + elevation.face[f]
      ensures forall c :: presElev.ownedCells <= c < presElev.cell.Length ==> presElev.cell[c] == old(presElev.cell[c])
      ensures forall f :: presElev.ownedFaces <= f < presElev.face.Length ==> presElev.face[f] == old(presElev.face[f])
    {
      var c := 0;
      while c != presElev.ownedCells
        invariant 0 <= c <= presElev.ownedCells
        invariant forall j :: 0 <= j < c ==> presElev.cell[j] == pres.cell[j] + elevation.cell[j]
        invariant forall j :: c <= j < presElev.cell.Length ==> presElev.cell[j] == old(presElev.cell[j])
        invariant presElev.face[..] == old(presElev.face[..])
      {
        presElev.cell[c] := pres.cell[c] + elevation.cell[c];
        c := c + 1;
      }
      var f := 0;
      while f != presElev.ownedFaces
        invariant 0 <= f <= presElev.ownedFaces
        invariant forall j :: 0 <= j < f ==> presElev.face[j] == pres.face[j] + elevation.face[j]
        invariant forall j :: f <= j < presElev.face.Length ==> presElev.face[j] == old(presElev.face[j])
        invariant forall j :: 0 <= j < presElev.ownedCells ==> presElev.cell[j] == pres.cell[j] + elevation.cell[j]
        invariant forall j :: presElev.ownedCells <= j < presElev.cell.Length ==> presElev.cell[j] == old(presElev.cell[j])
      {
        presElev.face[f] := pres.face[f] + elevation.face[f];
        f := f + 1;
      }
    }

    /** Adds `(V1 p1 - V0 p0) / dt` to every owned cell of `g`, with
        `dt = tNext - tInter` and the pressures and cell volumes of the
        intermediate and the next state. */
    method AddAccumulation(pres0: CompositeVector<real>, pres1: CompositeVector<real>,
                           cellVolume0: CompositeVector<real>, cellVolume1: CompositeVector<real>,
                           tInter: real, tNext: real, g: CompositeVector<real>)
      requires g.Valid() && tNext != tInter
      requires CoversCells(pres0, g) && CoversCells(pres1, g)
      requires CoversCells(cellVolume0, g) && CoversCells(cellVolume1, g)
      modifies g.cell
      ensures forall c :: 0 <= c < g.ownedCells ==>
        g.cell[c] == old(g.cell[c]) + AccumulationIncrement(cellVolume0.cell[c], pres0.cell[c],
                                                             cellVolume1.cell[c], pres1.cell[c], tNext - tInter)
      ensures forall c :: g.ownedCells <= c < g.cell.Length ==> g.cell[c] == old(g.cell[c])
    {
      var dt := tNext - tInter;
      var c := 0;
      while c != g.ownedCells
        invariant 0 <= c <= g.ownedCells
        invariant forall j :: 0 <= j < c ==>
          g.cell[j] == old(g.cell[j]) + AccumulationIncrement(cellVolume0.cell[j], pres0.cell[j],
                                                               cellVolume1.cell[j], pres1.cell[j], dt)
        invariant forall j :: c <= j < g.cell.Length ==> g.cell[j] == old(g.cell[j])
      {
        g.cell[c] := g.cell[c] + (cellVolume1.cell[c] * pres1.cell[c] - cellVolume0.cell[c] * pres0.cell[c]) / dt;
        c := c + 1;
      }
    }

    /** Subtracts `rhs_load_value() * V` from every owned cell of `g`. */
    method AddLoadValue(cellVolume: CompositeVector<real>, g: CompositeVector<real>)
      requires g.Valid() && CoversCells(cellVolume, g)
      modifies g.cell
      ensures forall c :: 0 <= c < g.ownedCells ==>
        g.cell[c] == old(g.cell[c]) - rhsLoadValue * cellVolume.cell[c]
      ensures forall c :: g.ownedCells <= c < g.cell.Length ==> g.cell[c] == old(g.cell[c])
    {
      var c := 0;
      while c != g.ownedCells
        invariant 0 <= c <= g.ownedCells
        invariant forall j :: 0 <= j < c ==> g.cell[j] == old(g.cell[j]) - rhsLoadValue * cellVolume.cell[j]
        invariant forall j :: c <= j < g.cell.Length ==> g.cell[j] == old(g.cell[j])
      {
        g.cell[c] := g.cell[c] - rhsLoadValue * cellVolume.cell[c];
        c := c + 1;
      }
    }

    /** Sets entry (0,0) of every tensor to 1; nothing else changes. */
    method SetAbsolutePermeabilityTensor()
      requires forall c :: 0 <= c < k.Length ==> k[c].HasEntry00()
      modifies k
      ensures forall c :: 0 <= c < k.Length ==> k[c] == SetEntry00(old(k[c]), 1.0)
    {
      var c := 0;
      while c != k.Length
        invariant 0 <= c <= k.Length
        invariant forall j :: 0 <= j < c ==> k[j] == SetEntry00(old(k[j]), 1.0)
        invariant forall j :: c <= j < k.Length ==> k[j] == old(k[j])
      {
        k[c] := SetEntry00(k[c], 1.0);
        c := c + 1;
      }
    }
  }
}
