/** make_site_displacements: the site x atom field of periodic
    displacements for one trial translation. */
module SiteDisplacements {
  import opened Geometry
  import opened Results

  /** robust_pbc_displacement_cart(lattice, site_cart, atom_cart): the
      minimum-length displacement from the site to the atom under periodic
      boundary conditions. Its floating-point Voronoi-cell iteration is not
      part of this model; it is taken as a given function. */
  type PbcDisplacement = (Lattice, Vec3, Vec3) -> Vec3

  /** d is the displacement field of the atoms (shifted by the translation)
      with respect to the sites: a row per site, a column per atom. */
  predicate IsDisplacementField(pbc: PbcDisplacement, lattice: Lattice, siteCoords: seq<Vec3>,
                                atomCoords: seq<Vec3>, translation: Vec3, d: seq<seq<Vec3>>) {
    && |d| == |siteCoords|
    && (forall i :: 0 <= i < |d| ==> |d[i]| == |atomCoords|)
    && forall i, j :: 0 <= i < |d| && 0 <= j < |atomCoords| && j < |d[i]| ==>
         d[i][j] == pbc(lattice, siteCoords[i], Add(atomCoords[j], translation))
  }

  /** make_site_displacements */
  method MakeSiteDisplacements(pbc: PbcDisplacement, lattice: Lattice, siteCoords: seq<Vec3>,
                               atomCoords: seq<Vec3>, translation: Vec3)
    returns (r: Result<seq<seq<Vec3>>>)
    ensures r.Failure? <==> |atomCoords| > |siteCoords|
    ensures r.Failure? ==> r.error == MoreAtomsThanSites
    ensures r.Success? ==> IsDisplacementField(pbc, lattice, siteCoords, atomCoords, translation, r.value)
  {
    if |atomCoords| > |siteCoords| {
      return Failure(MoreAtomsThanSites);
    }
    var nAtom := |atomCoords|;
    var nSite := |siteCoords|;
    // resize to N_site rows of N_atom entries each
    var d: seq<seq<Vec3>> := seq(nSite, _ => seq(nAtom, _ => Zero));
    var j := 0;
    while j < nAtom
      invariant 0 <= j <= nAtom
      invariant |d| == nSite && forall i :: 0 <= i < nSite ==> |d[i]| == nAtom
      invariant forall i, j' :: 0 <= i < nSite && 0 <= j' < j ==>
                  d[i][j'] == pbc(lattice, siteCoords[i], Add(atomCoords[j'], translation))
    {
      var i := 0;
      while i < nSite
        invariant 0 <= i <= nSite
        invariant |d| == nSite && forall i' :: 0 <= i' < nSite ==> |d[i']| == nAtom
        invariant forall i', j' :: 0 <= i' < nSite && 0 <= j' < j ==>
                    d[i'][j'] == pbc(lattice, siteCoords[i'], Add(atomCoords[j'], translation))
        invariant forall i' :: 0 <= i' < i ==>
                    d[i'][j] == pbc(lattice, siteCoords[i'], Add(atomCoords[j], translation))
      {
        d := d[i := d[i][j := pbc(lattice, siteCoords[i], Add(atomCoords[j], translation))]];
        i := i + 1;
      }
      j := j + 1;
    }
    return Success(d);
  }
}
