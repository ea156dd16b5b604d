/** The layered search-data records of the atom-mapping search:
    StructureSearchData and PrimSearchData (independent roots),
    LatticeMappingSearchData (one per lattice mapping) and
    AtomMappingSearchData (one per trial translation), each built once by a
    validating builder. */
module SearchData {
  import opened Geometry
  import opened Results
  import opened Xtal
  import opened Supercell
  import AtomCost
  import CostMatrix
  import SiteDisplacements
  import TrialTranslations

  /** A factor group with the empty list replaced by the identity alone. */
  function NormalizeFactorGroup(factorGroup: seq<SymOp>): (r: seq<SymOp>)
    ensures r != []
    ensures factorGroup != [] ==> r == factorGroup
    ensures factorGroup == [] ==> r == [IdentityOp]
  {
    if factorGroup == [] then [IdentityOp] else factorGroup
  }

  // ---------------------------------------------------------------------
  // StructureSearchData
  // ---------------------------------------------------------------------

  /** The structure being mapped: its lattice, atom positions and types, and
      its factor group. */
  datatype StructureSearchData = StructureSearchData(
    lattice: Lattice,
    nAtom: nat,
    atomCoordinateCart: seq<Vec3>,
    atomType: seq<string>,
    structureFactorGroup: seq<SymOp>)
  {
    /** One type per atom, and a non-empty factor group. */
    predicate Valid() {
      && nAtom == |atomCoordinateCart| == |atomType|
      && structureFactorGroup != []
    }
  }

  /** The StructureSearchData constructor: fails when the number of atom
      types differs from the number of atom columns. */
  function MakeStructureSearchData(lattice: Lattice, atomCoordinateCart: seq<Vec3>, atomType: seq<string>,
                                   structureFactorGroup: seq<SymOp>): (r: Result<StructureSearchData>)
    ensures r.Failure? <==> |atomType| != |atomCoordinateCart|
    ensures r.Failure? ==> r.error == AtomTypeCountMismatch
    ensures r.Success? ==>
              && r.value.Valid()
              && r.value.lattice == lattice
              && r.value.atomCoordinateCart == atomCoordinateCart
              && r.value.atomType == atomType
              && r.value.structureFactorGroup == NormalizeFactorGroup(structureFactorGroup)
  {
    if |atomType| != |atomCoordinateCart| then Failure(AtomTypeCountMismatch)
    else Success(StructureSearchData(lattice, |atomCoordinateCart|, atomCoordinateCart, atomType,
                                     NormalizeFactorGroup(structureFactorGroup)))
  }

  // ---------------------------------------------------------------------
  // PrimSearchData
  // ---------------------------------------------------------------------

  /** xtal::BasicStructure::max_possible_vacancies, not part of this model. */
  type VacancyCount = BasicStructure -> nat

  /** xtal::generate_invariant_shuffle_modes applied to a factor group and
      xtal::make_permutation_representation(prim, factor group); each mode is
      a 3 x N_prim_site matrix, given by its columns. Not part of this model. */
  type ModeGenerator = (BasicStructure, seq<SymOp>) -> seq<seq<Vec3>>

  /** The reference structure: its lattice, site positions, allowed types,
      factor group and, on request, its symmetry-invariant displacement
      modes. */
  datatype PrimSearchData = PrimSearchData(
    prim: BasicStructure,
    primLattice: Lattice,
    nPrimSite: nat,
    primSiteCoordinateCart: seq<Vec3>,
    primAllowedAtomTypes: seq<seq<string>>,
    vacanciesAllowed: bool,
    primFactorGroup: seq<SymOp>,
    primSymInvariantDisplacementModes: Option<seq<seq<Vec3>>>)
  {
    /** One position and one allowed list per prim site, and a non-empty
        factor group. */
    predicate Valid() {
      && nPrimSite == |primSiteCoordinateCart| == |primAllowedAtomTypes|
      && primFactorGroup != []
    }
  }

  /** Every occupant of every prim site is a single atom. */
  predicate AtomicOccupants(prim: BasicStructure) {
    forall b, k :: 0 <= b < |prim.basis| && 0 <= k < |prim.basis[b].occupantDof| ==>
      |prim.basis[b].occupantDof[k].atoms| <= 1
  }

  /** The PrimSearchData constructor: fails when some site has a molecular
      occupant. */
  method MakePrimSearchData(maxPossibleVacancies: VacancyCount, generateModes: ModeGenerator,
                            prim: BasicStructure, primFactorGroup: seq<SymOp>,
                            makePrimSymInvariantDisplacementModes: bool)
    returns (r: Result<PrimSearchData>)
    ensures r.Failure? <==> !AtomicOccupants(prim)
    ensures r.Failure? ==> r.error == MolecularOccupant
    ensures r.Success? ==>
              && r.value.Valid()
              && r.value.prim == prim
              && r.value.primLattice == prim.lattice
              && r.value.nPrimSite == |prim.basis|
              && (forall b :: 0 <= b < |prim.basis| ==> r.value.primSiteCoordinateCart[b] == prim.basis[b].cart)
              && r.value.primAllowedAtomTypes == AllowedMoleculeNames(prim)
              && r.value.vacanciesAllowed == (maxPossibleVacancies(prim) != 0)
              && r.value.primFactorGroup == NormalizeFactorGroup(primFactorGroup)
              && r.value.primSymInvariantDisplacementModes ==
                   if makePrimSymInvariantDisplacementModes
                   then Some(generateModes(prim, NormalizeFactorGroup(primFactorGroup)))
                   else None
  {
    var coords := MakeSiteCoordinateCart(prim);
    var factorGroup := NormalizeFactorGroup(primFactorGroup);
    var modes := if makePrimSymInvariantDisplacementModes
                 then Some(generateModes(prim, factorGroup)) else None;
    var data := PrimSearchData(prim, prim.lattice, |prim.basis|, coords, AllowedMoleculeNames(prim),
                               maxPossibleVacancies(prim) != 0, factorGroup, modes);
    // validation
    var b := 0;
    while b < |prim.basis|
      invariant 0 <= b <= |prim.basis|
      invariant forall b', k :: 0 <= b' < b && 0 <= k < |prim.basis[b'].occupantDof| ==>
                  |prim.basis[b'].occupantDof[k].atoms| <= 1
    {
      var occupants := prim.basis[b].occupantDof;
      var k := 0;
      while k < |occupants|
        invariant 0 <= k <= |occupants|
        invariant forall k' :: 0 <= k' < k ==> |occupants[k'].atoms| <= 1
      {
        if |occupants[k].atoms| > 1 {
          return Failure(MolecularOccupant);
        }
        k := k + 1;
      }
      b := b + 1;
    }
    return Success(data);
  }

  /** A type is allowed on a prim site exactly when one of the site's
      occupants carries that name. */
  lemma AllowedTypesAreOccupantNames(prim: BasicStructure, b: nat, t: string)
    requires b < |prim.basis|
    ensures t in AllowedMoleculeNames(prim)[b] <==>
              exists k :: 0 <= k < |prim.basis[b].occupantDof| && prim.basis[b].occupantDof[k].name == t
  {
    var names := AllowedMoleculeNames(prim)[b];
    if t in names {
      var k :| 0 <= k < |names| && names[k] == t;
      assert prim.basis[b].occupantDof[k].name == t;
    }
  }

  // ---------------------------------------------------------------------
  // LatticeMappingSearchData
  // ---------------------------------------------------------------------

  /** A lattice mapping: deformation gradient F, transformation matrix to
      the superlattice T and reorientation matrix N. */
  datatype LatticeMapping = LatticeMapping(
    deformationGradient: Mat3,
    transformationMatrixToSuper: Mat3,
    reorientation: Mat3)

  /** The floating-point and lattice routines the LatticeMappingSearchData
      constructor calls, none of which is part of this model: lround of a
      matrix, xtal::make_superlattice, the UnitCellCoordIndexConverter
      constructor (as its table of values) and the matrix inverse. */
  datatype LatticeTools = LatticeTools(
    lround: Mat3 -> IntMat3,
    makeSuperlattice: (Lattice, IntMat3) -> Lattice,
    makeIndexConverter: (IntMat3, nat) -> IndexConverter,
    inverse: Mat3 -> Mat3)

  /** The rounded integer transformation matrix lround(T * N). */
  function RoundedTransformation(tools: LatticeTools, latticeMapping: LatticeMapping): IntMat3 {
    tools.lround(MatMul(latticeMapping.transformationMatrixToSuper, latticeMapping.reorientation))
  }

  /** The data for one lattice mapping between a prim superstructure and a
      structure. */
  datatype LatticeMappingSearchData = LatticeMappingSearchData(
    primData: PrimSearchData,
    structureData: StructureSearchData,
    latticeMapping: LatticeMapping,
    transformationMatrixToSuper: IntMat3,
    supercellLattice: Lattice,
    unitcellcoordIndexConverter: IndexConverter,
    nSupercellSite: nat,
    atomCoordinateCartInSupercell: seq<Vec3>,
    supercellSiteCoordinateCart: seq<Vec3>,
    supercellAllowedAtomTypes: seq<seq<string>>)
  {
    /** The roots are valid, there is one position and one allowed list per
        supercell site and one position per atom, and the supercell tables
        are the prim tables lifted through the index converter. */
    predicate Valid() {
      && primData.Valid()
      && structureData.Valid()
      && nSupercellSite == |unitcellcoordIndexConverter|
      && |supercellSiteCoordinateCart| == nSupercellSite
      && |supercellAllowedAtomTypes| == nSupercellSite
      && |atomCoordinateCartInSupercell| == structureData.nAtom
      && ValidConverter(unitcellcoordIndexConverter, primData.nPrimSite)
      && (forall l :: 0 <= l < nSupercellSite ==>
            supercellSiteCoordinateCart[l] ==
              SupercellSite(unitcellcoordIndexConverter, primData.primSiteCoordinateCart, primData.primLattice, l))
      && (forall l :: 0 <= l < nSupercellSite ==>
            supercellAllowedAtomTypes[l] == primData.primAllowedAtomTypes[unitcellcoordIndexConverter[l].sublattice])
    }
  }

  /** The LatticeMappingSearchData constructor. The index converter built
      from the rounded transformation matrix must name only prim sites, as
      xtal's converter does by construction. */
  method MakeLatticeMappingSearchData(tools: LatticeTools, primData: PrimSearchData,
                                      structureData: StructureSearchData, latticeMapping: LatticeMapping)
    returns (r: LatticeMappingSearchData)
    requires primData.Valid() && structureData.Valid()
    requires ValidConverter(tools.makeIndexConverter(RoundedTransformation(tools, latticeMapping), primData.nPrimSite),
                            primData.nPrimSite)
    ensures r.Valid()
    ensures r.primData == primData && r.structureData == structureData && r.latticeMapping == latticeMapping
    ensures r.transformationMatrixToSuper == RoundedTransformation(tools, latticeMapping)
    ensures r.supercellLattice == tools.makeSuperlattice(primData.primLattice, r.transformationMatrixToSuper)
    ensures r.unitcellcoordIndexConverter == tools.makeIndexConverter(r.transformationMatrixToSuper, primData.nPrimSite)
    ensures forall j :: 0 <= j < structureData.nAtom ==>
              r.atomCoordinateCartInSupercell[j] ==
                MatVec(tools.inverse(latticeMapping.deformationGradient), structureData.atomCoordinateCart[j])
  {
    var t := RoundedTransformation(tools, latticeMapping);
    var superlattice := tools.makeSuperlattice(primData.primLattice, t);
    var converter := tools.makeIndexConverter(t, primData.nPrimSite);
    var fInverse := tools.inverse(latticeMapping.deformationGradient);
    var atomCoords := seq(structureData.nAtom, j requires 0 <= j < structureData.nAtom =>
                            MatVec(fInverse, structureData.atomCoordinateCart[j]));
    var siteCoords := MakeSupercellSiteCoordinateCart(converter, primData.primSiteCoordinateCart,
                                                      primData.primLattice);
    var allowed := MakeSupercellAllowedAtomTypes(converter, primData.primAllowedAtomTypes);
    r := LatticeMappingSearchData(primData, structureData, latticeMapping, t, superlattice, converter,
                                  |converter|, atomCoords, siteCoords, allowed);
  }

  /** Two supercell sites on the same sublattice allow the same types and
      are periodic images of each other under the prim lattice. */
  lemma SupercellSitesPeriodic(lmd: LatticeMappingSearchData, l: nat, l': nat)
    requires lmd.Valid() && l < lmd.nSupercellSite && l' < lmd.nSupercellSite
    requires lmd.unitcellcoordIndexConverter[l].sublattice == lmd.unitcellcoordIndexConverter[l'].sublattice
    ensures lmd.supercellAllowedAtomTypes[l] == lmd.supercellAllowedAtomTypes[l']
    ensures Sub(lmd.supercellSiteCoordinateCart[l], lmd.supercellSiteCoordinateCart[l'])
         == MatVec(lmd.primData.primLattice.latColumnMat,
                   ToReal(IntSub(lmd.unitcellcoordIndexConverter[l].unitcell,
                                 lmd.unitcellcoordIndexConverter[l'].unitcell)))
  {
    PeriodicImages(lmd.unitcellcoordIndexConverter, lmd.primData.primSiteCoordinateCart,
                   lmd.primData.primLattice, l, l');
  }

  /** The wrapper make_trial_translations(lattice_mapping_data): the trial
      translations from the atoms in the supercell frame to the prim sites. */
  method MakeTrialTranslations(isInteger: TrialTranslations.IntegerTest,
                               makeInternal: TrialTranslations.InternalTranslations,
                               lmd: LatticeMappingSearchData)
    returns (trial: seq<Vec3>)
    requires lmd.Valid()
    requires |lmd.structureData.atomType| > 0 || lmd.primData.nPrimSite == 0
    ensures trial == TrialTranslations.TrialTranslationsSpec(TrialTranslations.TrialInputs(
                       isInteger, lmd.primData.primLattice,
                       makeInternal(lmd.primData.primFactorGroup, lmd.primData.primLattice.tol),
                       lmd.atomCoordinateCartInSupercell, lmd.structureData.atomType,
                       lmd.primData.primSiteCoordinateCart, lmd.primData.primAllowedAtomTypes))
  {
    trial := TrialTranslations.MakeTrialTranslations(
               isInteger, makeInternal, lmd.atomCoordinateCartInSupercell, lmd.structureData.atomType,
               lmd.primData.primLattice, lmd.primData.primSiteCoordinateCart,
               lmd.primData.primAllowedAtomTypes, lmd.primData.primFactorGroup);
  }

  // ---------------------------------------------------------------------
  // AtomMappingSearchData
  // ---------------------------------------------------------------------

  /** The data for one trial translation of one lattice mapping: the
      displacement field and the assignment cost matrix. */
  datatype AtomMappingSearchData = AtomMappingSearchData(
    latticeMappingData: LatticeMappingSearchData,
    trialTranslationCart: Vec3,
    siteDisplacements: seq<seq<Vec3>>,
    costMatrix: array2<real>)

  /** The AtomMappingSearchData constructor: fails exactly when there are
      more atoms than supercell sites; the size checks of the cost-matrix
      builder then always pass. */
  method MakeAtomMappingSearchData(pbc: SiteDisplacements.PbcDisplacement, lmd: LatticeMappingSearchData,
                                   trialTranslationCart: Vec3, atomMappingCost: AtomCost.CostFunction,
                                   infinity: real)
    returns (r: Result<AtomMappingSearchData>)
    requires lmd.Valid()
    ensures r.Failure? <==> lmd.structureData.nAtom > lmd.nSupercellSite
    ensures r.Failure? ==> r.error == MoreAtomsThanSites
    ensures r.Success? ==> fresh(r.value.costMatrix)
    ensures r.Success? ==>
              && r.value.latticeMappingData == lmd
              && r.value.trialTranslationCart == trialTranslationCart
              && SiteDisplacements.IsDisplacementField(pbc, lmd.supercellLattice, lmd.supercellSiteCoordinateCart,
                                                       lmd.atomCoordinateCartInSupercell, trialTranslationCart,
                                                       r.value.siteDisplacements)
              && CostMatrix.DimensionsAgree(r.value.siteDisplacements, lmd.structureData.atomType,
                                            lmd.supercellAllowedAtomTypes)
              && r.value.costMatrix.Length0 == lmd.nSupercellSite
              && r.value.costMatrix.Length1 == lmd.nSupercellSite
              && forall i, j :: 0 <= i < lmd.nSupercellSite && 0 <= j < lmd.nSupercellSite ==>
                   r.value.costMatrix[i, j] ==
                     CostMatrix.CostEntry(atomMappingCost, r.value.siteDisplacements, lmd.structureData.atomType,
                                          lmd.supercellAllowedAtomTypes, infinity, i, j)
  {
    var displacements := SiteDisplacements.MakeSiteDisplacements(
                           pbc, lmd.supercellLattice, lmd.supercellSiteCoordinateCart,
                           lmd.atomCoordinateCartInSupercell, trialTranslationCart);
    if displacements.Failure? {
      return Failure(displacements.error);
    }
    var disp := displacements.value;
    assert CostMatrix.DimensionsAgree(disp, lmd.structureData.atomType, lmd.supercellAllowedAtomTypes);
    var costs := CostMatrix.MakeCostMatrix(atomMappingCost, disp, lmd.structureData.atomType,
                                           lmd.supercellAllowedAtomTypes, infinity);
    assert costs.Success?;
    return Success(AtomMappingSearchData(lmd, trialTranslationCart, disp, costs.value));
  }
}
