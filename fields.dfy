/** Distributed field values and the mesh adjacency the flow kernels use.
    A composite vector here has a "cell" and a "face" component; each is an
    array over the used (owned then ghost) entities of its kind, and the
    owned counts are what `size(component)` reports. A field defined on
    cells only has an empty face component. */
module Fields {

  type Key = string

  /** A double that may be NaN; used for the numerical relative permeability,
      the one field whose entries the modelled code tests for NaN. */
  datatype Double = Num(value: real) | NaN

  class CompositeVector<T> {
    const cell: array<T>
    const face: array<T>
    const ownedCells: nat
    const ownedFaces: nat

    ghost predicate Valid() {
      ownedCells <= cell.Length && ownedFaces <= face.Length && cell != face
    }

    constructor (cell: array<T>, face: array<T>, ownedCells: nat, ownedFaces: nat)
      requires ownedCells <= cell.Length && ownedFaces <= face.Length && cell != face
      ensures Valid()
      ensures this.cell == cell && this.face == face
      ensures this.ownedCells == ownedCells && this.ownedFaces == ownedFaces
    {
      this.cell := cell;
      this.face := face;
      this.ownedCells := ownedCells;
      this.ownedFaces := ownedFaces;
    }
  }

  /** `input` can be read at every owned cell of `output`, and writing the
      cells of `output` does not touch `input`'s cells. */
  ghost predicate CoversCells(input: CompositeVector<real>, output: CompositeVector<real>) {
    output.ownedCells <= input.cell.Length && input.cell != output.cell && input.cell != output.face
  }

  /** The same for the face component. */
  ghost predicate CoversFaces(input: CompositeVector<real>, output: CompositeVector<real>) {
    output.ownedFaces <= input.face.Length && input.face != output.cell && input.face != output.face
  }

  ghost predicate Covers(input: CompositeVector<real>, output: CompositeVector<real>) {
    CoversCells(input, output) && CoversFaces(input, output)
  }

  /** The field store `S` holds `key`, covering `output`. */
  ghost predicate Supplies(S: map<Key, CompositeVector<real>>, key: Key, output: CompositeVector<real>) {
    key in S && Covers(S[key], output)
  }

  /** The mesh as the flow kernels see it: for every used face, the ids of
      its adjacent used cells (`face_get_cells(f, USED)`). */
  datatype Mesh = Mesh(faceCells: seq<seq<nat>>) {
    /** The first `nfaces` faces each have at least one adjacent cell, and
        every adjacent cell id indexes a cell array of length `ncells`. */
    ghost predicate FacesHaveCells(nfaces: nat, ncells: nat) {
      nfaces <= |faceCells| &&
      forall f :: 0 <= f < nfaces ==>
        1 <= |faceCells[f]| && forall k :: 0 <= k < |faceCells[f]| ==> faceCells[f][k] < ncells
    }
  }

  /** `PutScalar(x)`: every entry of both components, ghosts included, becomes x. */
  method PutScalar<T>(v: CompositeVector<T>, x: T)
    requires v.Valid()
    modifies v.cell, v.face
    ensures forall i :: 0 <= i < v.cell.Length ==> v.cell[i] == x
    ensures forall i :: 0 <= i < v.face.Length ==> v.face[i] == x
  {
    var i := 0;
    while i != v.cell.Length
      invariant 0 <= i <= v.cell.Length
      invariant forall j :: 0 <= j < i ==> v.cell[j] == x
    {
      v.cell[i] := x;
      i := i + 1;
    }
    i := 0;
    while i != v.face.Length
      invariant 0 <= i <= v.face.Length
      invariant forall j :: 0 <= j < v.cell.Length ==> v.cell[j] == x
      invariant forall j :: 0 <= j < i ==> v.face[j] == x
    {
      v.face[i] := x;
      i := i + 1;
    }
  }

  /** `std::vector::resize(n, fill)`: the first min(n, old length) entries
      are kept and any new entries are `fill`. */
  method Resized<T>(a: array<T>, n: nat, fill: T) returns (b: array<T>)
    ensures fresh(b) && b.Length == n
    ensures forall i :: 0 <= i < n ==> b[i] == if i < a.Length then a[i] else fill
  {
    b := new T[n](_ => fill);
    var i := 0;
    while i != n && i != a.Length
      invariant 0 <= i <= n && i <= a.Length
      invariant forall j :: 0 <= j < n ==> b[j] == if j < i then a[j] else fill
    {
      b[i] := a[i];
      i := i + 1;
    }
  }
}
