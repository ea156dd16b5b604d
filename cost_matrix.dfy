/** make_cost_matrix: the square assignment-problem cost matrix built from
    the site-to-atom displacements, padded with vacancies when there are
    more sites than atoms. */
module CostMatrix {
  import opened Geometry
  import opened Results
  import opened AtomCost

  /** The atom type given to the padding columns. */
  const PaddingType: string := "Va"

  /** The two size checks make_cost_matrix performs before building: one
      displacement row per site, and each row as long as the atom list. */
  predicate DimensionsAgree(disp: seq<seq<Vec3>>, atomType: seq<string>, allowed: seq<seq<string>>) {
    && |disp| == |allowed|
    && forall i :: 0 <= i < |disp| ==> |disp[i]| == |atomType|
  }

  /** Entry (site i, column j) of the cost matrix: real atoms in the first
      N_atom columns, a vacancy at zero displacement in the others. */
  function CostEntry(f: CostFunction, disp: seq<seq<Vec3>>, atomType: seq<string>,
                     allowed: seq<seq<string>>, infinity: real, i: nat, j: nat): real
    requires DimensionsAgree(disp, atomType, allowed) && i < |allowed|
  {
    if j < |atomType| then f(disp[i][j], atomType[j], allowed[i], infinity)
    else f(Zero, PaddingType, allowed[i], infinity)
  }

  /** make_cost_matrix. The source writes column j < N_atom of an
      N_site x N_site matrix without checking N_atom <= N_site; the
      precondition excludes exactly the inputs that pass both size checks
      and would then be written out of bounds. */
  method MakeCostMatrix(f: CostFunction, disp: seq<seq<Vec3>>, atomType: seq<string>,
                        allowed: seq<seq<string>>, infinity: real)
    returns (r: Result<array2<real>>)
    requires DimensionsAgree(disp, atomType, allowed) ==> |allowed| == 0 || |atomType| <= |allowed|
    ensures |disp| != |allowed| ==> r == Failure(SiteCountMismatch)
    ensures |disp| == |allowed| && !DimensionsAgree(disp, atomType, allowed) ==> r == Failure(AtomCountMismatch)
    ensures r.Success? ==> fresh(r.value)
    ensures DimensionsAgree(disp, atomType, allowed) ==>
              && r.Success?
              && r.value.Length0 == |allowed| && r.value.Length1 == |allowed|
              && forall i, j :: 0 <= i < |allowed| && 0 <= j < |allowed| ==>
                   r.value[i, j] == CostEntry(f, disp, atomType, allowed, infinity, i, j)
  {
    if |disp| != |allowed| {
      return Failure(SiteCountMismatch);
    }
    var k := 0;
    while k < |disp|
      invariant 0 <= k <= |disp|
      invariant forall i :: 0 <= i < k ==> |disp[i]| == |atomType|
    {
      if |disp[k]| != |atomType| {
        return Failure(AtomCountMismatch);
      }
      k := k + 1;
    }

    var nSite := |allowed|;
    var nAtom := |atomType|;
    var m := new real[nSite, nSite];
    // cost_matrix(site_index, atom_index) for the real atoms
    var j := 0;
    while j < nAtom
      invariant 0 <= j <= nAtom
      invariant forall i, j' :: 0 <= i < nSite && 0 <= j' < j ==>
                  m[i, j'] == CostEntry(f, disp, atomType, allowed, infinity, i, j')
    {
      var i := 0;
      while i < nSite
        invariant 0 <= i <= nSite
        invariant forall i', j' :: 0 <= i' < nSite && 0 <= j' < j ==>
                    m[i', j'] == CostEntry(f, disp, atomType, allowed, infinity, i', j')
        invariant forall i' :: 0 <= i' < i ==>
                    m[i', j] == CostEntry(f, disp, atomType, allowed, infinity, i', j)
      {
        m[i, j] := f(disp[i][j], atomType[j], allowed[i], infinity);
        i := i + 1;
      }
      j := j + 1;
    }
    // if N_atom < N_site, the remaining columns are vacancies to map
    j := nAtom;
    while j < nSite
      invariant nAtom <= j <= nSite || nSite == 0
      invariant forall i, j' :: 0 <= i < nSite && 0 <= j' < j ==>
                  m[i, j'] == CostEntry(f, disp, atomType, allowed, infinity, i, j')
    {
      var i := 0;
      while i < nSite
        invariant 0 <= i <= nSite
        invariant forall i', j' :: 0 <= i' < nSite && 0 <= j' < j ==>
                    m[i', j'] == CostEntry(f, disp, atomType, allowed, infinity, i', j')
        invariant forall i' :: 0 <= i' < i ==>
                    m[i', j] == CostEntry(f, disp, atomType, allowed, infinity, i', j)
      {
        m[i, j] := f(Zero, PaddingType, allowed[i], infinity);
        i := i + 1;
      }
      j := j + 1;
    }
    return Success(m);
  }

  /** With the default cost, a padding column costs 0 on a site that allows a
      vacancy and infinity on every other site, whatever the displacements. */
  lemma PaddingColumnCost(isVacancy: VacancyTest, disp: seq<seq<Vec3>>, atomType: seq<string>,
                          allowed: seq<seq<string>>, infinity: real, i: nat, j: nat)
    requires isVacancy(PaddingType)
    requires DimensionsAgree(disp, atomType, allowed) && i < |allowed| && |atomType| <= j
    ensures CostEntry(DefaultCost(isVacancy), disp, atomType, allowed, infinity, i, j) ==
              if exists k :: 0 <= k < |allowed[i]| && isVacancy(allowed[i][k]) then 0.0 else infinity
  {
    assert CostEntry(DefaultCost(isVacancy), disp, atomType, allowed, infinity, i, j)
        == MakeAtomMappingCost(isVacancy, Zero, PaddingType, allowed[i], infinity);
  }

  /** With the default cost, a real-atom column costs infinity exactly on the
      sites that do not permit that atom, and otherwise 0 for a vacancy and
      the squared displacement for any other atom. */
  lemma AtomColumnCost(isVacancy: VacancyTest, disp: seq<seq<Vec3>>, atomType: seq<string>,
                       allowed: seq<seq<string>>, infinity: real, i: nat, j: nat)
    requires DimensionsAgree(disp, atomType, allowed) && i < |allowed| && j < |atomType|
    ensures !Permits(isVacancy, allowed[i], atomType[j]) ==>
              CostEntry(DefaultCost(isVacancy), disp, atomType, allowed, infinity, i, j) == infinity
    ensures Permits(isVacancy, allowed[i], atomType[j]) && isVacancy(atomType[j]) ==>
              CostEntry(DefaultCost(isVacancy), disp, atomType, allowed, infinity, i, j) == 0.0
    ensures Permits(isVacancy, allowed[i], atomType[j]) && !isVacancy(atomType[j]) ==>
              CostEntry(DefaultCost(isVacancy), disp, atomType, allowed, infinity, i, j) == Dot(disp[i][j], disp[i][j])
    ensures Permits(isVacancy, allowed[i], atomType[j]) ==>
              CostEntry(DefaultCost(isVacancy), disp, atomType, allowed, infinity, i, j) >= 0.0
  {
    assert CostEntry(DefaultCost(isVacancy), disp, atomType, allowed, infinity, i, j)
        == MakeAtomMappingCost(isVacancy, disp[i][j], atomType[j], allowed[i], infinity);
    CostMatchesPermits(isVacancy, disp[i][j], atomType[j], allowed[i], infinity);
  }

  /** The two-site example: sites allowing {"A"} and {"A", "Va"}, one "A" atom
      sitting on site 0. Mapping the atom to site 0 and the padding vacancy
      to site 1 costs 0 + 0, and the vacancy cannot go to site 0. */
  lemma TwoSiteExample(isVacancy: VacancyTest, d: Vec3, infinity: real)
    requires isVacancy("Va") && !isVacancy("A")
    ensures DimensionsAgree([[Zero], [d]], ["A"], [["A"], ["A", "Va"]])
    ensures CostEntry(DefaultCost(isVacancy), [[Zero], [d]], ["A"], [["A"], ["A", "Va"]], infinity, 0, 0) == 0.0
    ensures CostEntry(DefaultCost(isVacancy), [[Zero], [d]], ["A"], [["A"], ["A", "Va"]], infinity, 1, 1) == 0.0
    ensures CostEntry(DefaultCost(isVacancy), [[Zero], [d]], ["A"], [["A"], ["A", "Va"]], infinity, 0, 1) == infinity
    ensures CostEntry(DefaultCost(isVacancy), [[Zero], [d]], ["A"], [["A"], ["A", "Va"]], infinity, 1, 0) == Dot(d, d)
  {
    var allowed := [["A"], ["A", "Va"]];
    assert allowed[1][1] == "Va";
    assert "A" in allowed[0] && "A" in allowed[1];
    assert !HasVacancy(isVacancy, allowed[0]);
  }
}
