/** The prim and supercell site tables: make_site_coordinate_cart,
    make_supercell_site_coordinate_cart and make_supercell_allowed_atom_types. */
module Supercell {
  import opened Geometry
  import opened Xtal

  /** xtal::UnitCellCoord: a sublattice index b and a unit cell ijk. */
  datatype UnitCellCoord = UnitCellCoord(sublattice: nat, unitcell: UnitCell)

  /** xtal::UnitCellCoordIndexConverter, as the table of its values l -> (b, ijk)
      for l in 0 .. total_sites(). */
  type IndexConverter = seq<UnitCellCoord>

  /** Every sublattice index the converter produces names a prim site. */
  predicate ValidConverter(converter: IndexConverter, nPrimSite: nat) {
    forall l :: 0 <= l < |converter| ==> converter[l].sublattice < nPrimSite
  }

  /** The position of supercell site l: its prim site's position plus the
      lattice translation L * ijk. */
  function SupercellSite(converter: IndexConverter, primCoords: seq<Vec3>, primLattice: Lattice, l: nat): Vec3
    requires ValidConverter(converter, |primCoords|) && l < |converter|
  {
    Add(primCoords[converter[l].sublattice],
        MatVec(primLattice.latColumnMat, ToReal(converter[l].unitcell)))
  }

  /** make_site_coordinate_cart: the prim site positions, one column per
      basis site, in basis order. */
  method MakeSiteCoordinateCart(prim: BasicStructure) returns (coords: seq<Vec3>)
    ensures |coords| == |prim.basis|
    ensures forall l :: 0 <= l < |prim.basis| ==> coords[l] == prim.basis[l].cart
  {
    coords := seq(|prim.basis|, _ => Zero);
    var l := 0;
    while l < |prim.basis|
      invariant 0 <= l <= |prim.basis| && |coords| == |prim.basis|
      invariant forall l' :: 0 <= l' < l ==> coords[l'] == prim.basis[l'].cart
    {
      coords := coords[l := prim.basis[l].cart];
      l := l + 1;
    }
  }

  /** make_supercell_site_coordinate_cart */
  method MakeSupercellSiteCoordinateCart(converter: IndexConverter, primCoords: seq<Vec3>, primLattice: Lattice)
    returns (coords: seq<Vec3>)
    requires ValidConverter(converter, |primCoords|)
    ensures |coords| == |converter|
    ensures forall l :: 0 <= l < |converter| ==>
              coords[l] == SupercellSite(converter, primCoords, primLattice, l)
  {
    var nSupercellSite := |converter|;
    coords := seq(nSupercellSite, _ => Zero);
    var l := 0;
    while l < nSupercellSite
      invariant 0 <= l <= nSupercellSite && |coords| == nSupercellSite
      invariant forall l' :: 0 <= l' < l ==> coords[l'] == SupercellSite(converter, primCoords, primLattice, l')
    {
      var b := converter[l].sublattice;
      var ijk := converter[l].unitcell;
      coords := coords[l := Add(primCoords[b], MatVec(primLattice.latColumnMat, ToReal(ijk)))];
      l := l + 1;
    }
  }

  /** make_supercell_allowed_atom_types */
  method MakeSupercellAllowedAtomTypes(converter: IndexConverter, primAllowed: seq<seq<string>>)
    returns (allowed: seq<seq<string>>)
    requires ValidConverter(converter, |primAllowed|)
    ensures |allowed| == |converter|
    ensures forall l :: 0 <= l < |converter| ==> allowed[l] == primAllowed[converter[l].sublattice]
  {
    allowed := [];
    var l := 0;
    while l < |converter|
      invariant 0 <= l <= |converter| && |allowed| == l
      invariant forall l' :: 0 <= l' < l ==> allowed[l'] == primAllowed[converter[l'].sublattice]
    {
      var b := converter[l].sublattice;
      allowed := allowed + [primAllowed[b]];
      l := l + 1;
    }
  }

  /** Two supercell sites on the same sublattice are periodic images: their
      positions differ by the prim lattice vector L * (ijk - ijk'). */
  lemma PeriodicImages(converter: IndexConverter, primCoords: seq<Vec3>, primLattice: Lattice, l: nat, l': nat)
    requires ValidConverter(converter, |primCoords|) && l < |converter| && l' < |converter|
    requires converter[l].sublattice == converter[l'].sublattice
    ensures Sub(SupercellSite(converter, primCoords, primLattice, l), SupercellSite(converter, primCoords, primLattice, l'))
         == MatVec(primLattice.latColumnMat, ToReal(IntSub(converter[l].unitcell, converter[l'].unitcell)))
  {
  }

  /** A supercell site in the origin unit cell sits exactly on its prim site. */
  lemma OriginCellSite(converter: IndexConverter, primCoords: seq<Vec3>, primLattice: Lattice, l: nat)
    requires ValidConverter(converter, |primCoords|) && l < |converter|
    requires converter[l].unitcell == UnitCell(0, 0, 0)
    ensures SupercellSite(converter, primCoords, primLattice, l) == primCoords[converter[l].sublattice]
  {
  }
}
