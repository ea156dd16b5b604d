/** Exact-real stand-ins for the Eigen vectors and matrices and the xtal
    lattice and symmetry-operation records used by the mapping search. */
module Geometry {

  /** A Cartesian (or fractional) 3-vector. */
  datatype Vec3 = Vec3(x: real, y: real, z: real)

  /** An integer 3-vector: the unit cell (i, j, k) of a supercell site. */
  datatype UnitCell = UnitCell(i: int, j: int, k: int)

  /** A 3x3 real matrix given by its three columns. */
  datatype Mat3 = Mat3(c0: Vec3, c1: Vec3, c2: Vec3)

  /** A 3x3 integer matrix given by its three columns. */
  datatype IntMat3 = IntMat3(c0: UnitCell, c1: UnitCell, c2: UnitCell)

  const Zero: Vec3 := Vec3(0.0, 0.0, 0.0)

  const IdentityMat: Mat3 :=
    Mat3(Vec3(1.0, 0.0, 0.0), Vec3(0.0, 1.0, 0.0), Vec3(0.0, 0.0, 1.0))

  function Add(a: Vec3, b: Vec3): Vec3 {
    Vec3(a.x + b.x, a.y + b.y, a.z + b.z)
  }

  function Sub(a: Vec3, b: Vec3): Vec3 {
    Vec3(a.x - b.x, a.y - b.y, a.z - b.z)
  }

  function Scale(s: real, a: Vec3): Vec3 {
    Vec3(s * a.x, s * a.y, s * a.z)
  }

  function Dot(a: Vec3, b: Vec3): real {
    a.x * b.x + a.y * b.y + a.z * b.z
  }

  /** The matrix-vector product m * v. */
  function MatVec(m: Mat3, v: Vec3): Vec3 {
    Add(Add(Scale(v.x, m.c0), Scale(v.y, m.c1)), Scale(v.z, m.c2))
  }

  /** The matrix product a * b, column by column. */
  function MatMul(a: Mat3, b: Mat3): Mat3 {
    Mat3(MatVec(a, b.c0), MatVec(a, b.c1), MatVec(a, b.c2))
  }

  /** ijk.cast<double>() */
  function ToReal(u: UnitCell): Vec3 {
    Vec3(u.i as real, u.j as real, u.k as real)
  }

  function IntSub(a: UnitCell, b: UnitCell): UnitCell {
    UnitCell(a.i - b.i, a.j - b.j, a.k - b.k)
  }

  /** xtal::Lattice: the column-vector matrix, its inverse and the tolerance.
      The Voronoi data used only by the periodic-displacement routine is not
      part of this model. */
  datatype Lattice = Lattice(latColumnMat: Mat3, invLatColumnMat: Mat3, tol: real)

  /** xtal::SymOp: a point operation, a translation and a time-reversal flag. */
  datatype SymOp = SymOp(matrix: Mat3, translation: Vec3, isTimeReversalActive: bool)

  /** xtal::SymOp::identity() */
  const IdentityOp: SymOp := SymOp(IdentityMat, Zero, false)

  /** The squared length d.dot(d) is never negative. */
  lemma DotSelfNonnegative(d: Vec3)
    ensures Dot(d, d) >= 0.0
  {
  }

  /** Adding the translation s - a to a lands exactly on s. */
  lemma AddSubCancel(a: Vec3, s: Vec3)
    ensures Add(a, Sub(s, a)) == s
  {
  }

  /** Linearity of the matrix product: m*u - m*w == m*(u - w) for integer
      vectors u and w. */
  lemma MatVecIntSub(m: Mat3, u: UnitCell, w: UnitCell)
    ensures Sub(MatVec(m, ToReal(u)), MatVec(m, ToReal(w))) == MatVec(m, ToReal(IntSub(u, w)))
  {
  }
}

/** Errors raised by the search-data builders, and the result wrappers. */
module Results {

  datatype Error =
    | AtomTypeCountMismatch   // StructureSearchData: atom_type.size() != atom_coordinate_cart.cols()
    | MolecularOccupant       // PrimSearchData: an occupant with more than one atom
    | MoreAtomsThanSites      // make_site_displacements: more atom columns than site columns
    | SiteCountMismatch       // make_cost_matrix: site_displacements.size() != allowed_atom_types.size()
    | AtomCountMismatch       // make_cost_matrix: a row of site_displacements != atom_type.size()

  datatype Result<T> = Success(value: T) | Failure(error: Error)

  datatype Option<T> = None | Some(value: T)
}

/** The xtal structure records the prim is read from. */
module Xtal {
  import opened Geometry

  /** xtal::AtomPosition: a named atom at a Cartesian position. */
  datatype AtomPosition = AtomPosition(cart: Vec3, name: string)

  /** xtal::Molecule: a named occupant made of one or more atoms. */
  datatype Molecule = Molecule(name: string, atoms: seq<AtomPosition>)

  /** xtal::Site: a Cartesian position and the occupants allowed there. */
  datatype Site = Site(cart: Vec3, occupantDof: seq<Molecule>)

  /** xtal::BasicStructure: a lattice and a basis of sites. */
  datatype BasicStructure = BasicStructure(lattice: Lattice, basis: seq<Site>)

  /** xtal::allowed_molecule_names: for each basis site, the names of its
      allowed occupants in order. */
  function AllowedMoleculeNames(prim: BasicStructure): (names: seq<seq<string>>)
    ensures |names| == |prim.basis|
    ensures forall b :: 0 <= b < |prim.basis| ==> |names[b]| == |prim.basis[b].occupantDof|
    ensures forall b, k :: 0 <= b < |prim.basis| && 0 <= k < |prim.basis[b].occupantDof| ==>
              names[b][k] == prim.basis[b].occupantDof[k].name
  {
    seq(|prim.basis|, b requires 0 <= b < |prim.basis| =>
      seq(|prim.basis[b].occupantDof|, k requires 0 <= k < |prim.basis[b].occupantDof| =>
        prim.basis[b].occupantDof[k].name))
  }
}
