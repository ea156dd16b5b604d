# CASM mapping: atom-mapping search data

This project is a Dafny model of the atom-mapping search stage of CASM's
structure mapper (`src/casm/mapping/SearchData.cc`). For one candidate lattice
mapping between a reference structure (the "prim") and a structure to be
mapped, that stage computes:

- the candidate rigid translations that bring an atom onto a compatible prim site;
- for one trial translation, the periodic site-to-atom displacement field;
- the square assignment cost matrix. It turns occupancy rules into costs (0,
  `infinity` or the squared displacement) and pads surplus sites with
  vacancy columns.

It also covers the four layered, validating records that cache these inputs:
`StructureSearchData`, `PrimSearchData`, `LatticeMappingSearchData` and
`AtomMappingSearchData`.

Modules and files:

- `geometry.dfy`: holds several small modules.
  - `Geometry`: exact-real vectors and matrices, the lattice and the symmetry operation.
  - `Results`: the builders' errors, `Result` and `Option`.
  - `Xtal`: the structure records the prim is read from.
- `atom_cost.dfy` (`AtomCost`): `make_atom_mapping_cost`.
- `cost_matrix.dfy` (`CostMatrix`): `make_cost_matrix`, which fills an `array2<real>` in nested loops.
- `site_displacements.dfy` (`SiteDisplacements`): `make_site_displacements`.
- `trial_translations.dfy` (`TrialTranslations`): `is_new_unique_translation`
  and `mapping_impl::make_trial_translations`. The method is proved equal to
  the reference function `TrialTranslationsSpec`. The lemmas describe what
  that function returns.
- `supercell.dfy` (`Supercell`): `make_site_coordinate_cart`,
  `make_supercell_site_coordinate_cart` and `make_supercell_allowed_atom_types`.
- `search_data.dfy` (`SearchData`): the four constructors and the wrapper
  `make_trial_translations(lattice_mapping_data)`.

Modelling choices:

- Floating-point coordinates are Dafny `real`. This is exact for
  `displacement.dot(displacement)` and for `col(b) + L * ijk`.
- Routines outside this file become parameters of the members that call them:
  - `xtal::is_vacancy` becomes `VacancyTest`.
  - `xtal::is_integer` becomes `IntegerTest`. Equality modulo the prim lattice
    is `SameModLattice`: the fractional difference passes the integer test.
  - `xtal::make_internal_translations` becomes `InternalTranslations`.
  - `robust_pbc_displacement_cart` becomes `PbcDisplacement`.
  - `max_possible_vacancies` becomes `VacancyCount`.
  - The invariant-mode generator becomes `ModeGenerator`.
  - `lround`, `make_superlattice`, the index-converter constructor and the
    matrix inverse are bundled in `LatticeTools`.
- The `UnitCellCoordIndexConverter` is represented by its table of values
  `l -> (b, ijk)`. It is required to name only prim sites, as xtal's converter
  does by construction.
- Exceptions are `Failure` results. The SearchData error list is kept in `Results.Error`.
- `PrimSearchData` keeps one `vacancies_allowed` value, computed from
  `max_possible_vacancies()` (SearchData.cc:433), not a flag per site. The model
  keeps it as the bool `vacanciesAllowed`, true when that count is non-zero.
- Compatible sites are counted by exact type name. With prim sites `{"A"}` and
  `{"A","Va"}` and atoms "A" and "Va", the "Va" atom (one compatible site) is
  chosen over "A" (two), and the only trial translation is zero
  (`TrialTranslations.TwoSiteExample`).

## Model

| member | source | states |
|---|---|---|
| AtomCost.HasVacancy | src/casm/mapping/SearchData.cc:542-548 | the early-return search succeeds exactly when some allowed type is a vacancy |
| AtomCost.MakeAtomMappingCost | src/casm/mapping/SearchData.cc:538-560 | vacancy atom: 0 if some allowed type is a vacancy, else infinity; non-vacancy atom not allowed: infinity; otherwise d·d |
| AtomCost.CostMatchesPermits | src/casm/mapping/SearchData.cc:538-560 | a non-permitted pair costs exactly infinity; a permitted pair costs 0 (vacancy) or d·d, never negative |
| AtomCost.CostOutcomes | src/casm/mapping/SearchData.cc:541-559 | the cost is one of 0, infinity, d·d, and is non-negative when infinity is |
| AtomCost.VacancyCostIgnoresDisplacement | src/casm/mapping/SearchData.cc:541-549 | the cost of a vacancy atom does not depend on the displacement |
| CostMatrix.MakeCostMatrix | src/casm/mapping/SearchData.cc:327-371 | fails with the site-count error or the atom-count error exactly when the corresponding size check fails; otherwise an N_site x N_site matrix with column j < N_atom from the real atom and column j >= N_atom from a "Va" atom at zero displacement |
| CostMatrix.CostEntry | src/casm/mapping/SearchData.cc:347-368 | the entry rule: column j < N_atom costs atom j against site i at displacement [i][j]; a later column costs a "Va" atom at zero displacement |
| CostMatrix.PaddingColumnCost | src/casm/mapping/SearchData.cc:361-368 | with the default cost and is_vacancy("Va"), a padding column costs 0 on vacancy-permitting sites and infinity elsewhere |
| CostMatrix.AtomColumnCost | src/casm/mapping/SearchData.cc:349-360 | with the default cost, a real-atom entry is infinity exactly when the site does not permit the atom, else 0 (vacancy) or d·d >= 0 |
| CostMatrix.TwoSiteExample | src/casm/mapping/SearchData.cc:347-368 | the two-site case: atom to site 0 and padding vacancy to site 1 both cost 0; the padding vacancy on site 0 costs infinity |
| SiteDisplacements.MakeSiteDisplacements | src/casm/mapping/SearchData.cc:262-293 | fails (more atoms than sites) exactly when N_atom > N_site; otherwise N_site rows of N_atom entries, entry [i][j] = pbc(lattice, site_i, atom_j + translation) |
| TrialTranslations.AnyEquivalentToCorrect | src/casm/mapping/SearchData.cc:133-137 | the inner scan succeeds exactly when x equals some current unique translation modulo the prim lattice |
| TrialTranslations.AnyEquivalentCorrect | src/casm/mapping/SearchData.cc:131-138 | the double scan succeeds exactly when test + t equals some current translation modulo the lattice for some internal translation t |
| TrialTranslations.IsNewUniqueTranslation | src/casm/mapping/SearchData.cc:109-140 | is_new_unique_translation accepts every translation when there is a single internal translation (the early return) or no current translation (the loops do not run) |
| TrialTranslations.IsNewUniqueTranslationCorrect | src/casm/mapping/SearchData.cc:109-140 | true with a single internal translation or an empty current list; otherwise false exactly when some test + t is lattice-equivalent to some current translation |
| TrialTranslations.CompatibleSites | src/casm/mapping/SearchData.cc:195-200 | the listed sites are prim sites, at most N_prim_site of them |
| TrialTranslations.CompatibleSitesCorrect | src/casm/mapping/SearchData.cc:195-200 | the compatible sites are exactly the sites whose allowed list contains the type, in increasing order |
| TrialTranslations.CompatibleSitesBelowCorrect | src/casm/mapping/SearchData.cc:195-200 | after n steps of the scan, the accepted sites are exactly the sites below n allowing the type, in increasing order |
| TrialTranslations.ZeroCountIffUnplaceable | src/casm/mapping/SearchData.cc:194-204 | N_allowed_sites is 0 exactly when no prim site allows the type |
| TrialTranslations.FirstMinIndex | src/casm/mapping/SearchData.cc:205-208 | the running choice under strict `<` is a minimal count, strictly smaller than every earlier count |
| TrialTranslations.BestAtomIndex | src/casm/mapping/SearchData.cc:189-209 | best_atom_index names an atom |
| TrialTranslations.BestAtomIsFirstMinimal | src/casm/mapping/SearchData.cc:189-209 | the chosen atom has the fewest compatible sites, and every earlier atom strictly more |
| TrialTranslations.UniqueSitesBelow | src/casm/mapping/SearchData.cc:214-230 | the sites kept after n steps of the collecting loop are prim sites below n, no more than the sites below n allowing the type |
| TrialTranslations.TranslationsToSnoc | src/casm/mapping/SearchData.cc:223-229 | pushing a site appends its translation site - atom |
| TrialTranslations.UniqueSites | src/casm/mapping/SearchData.cc:213-230 | the sites the collecting loop keeps are prim sites, no more of them than the sites allowing the type |
| TrialTranslations.UniqueSitesBelowCompatible | src/casm/mapping/SearchData.cc:214-230 | only sites allowing the type are kept, in increasing site order |
| TrialTranslations.UniqueSitesBelowNonEmpty | src/casm/mapping/SearchData.cc:114-116 | some site is kept as soon as some site allows the type (the first one always passes the empty-list test) |
| TrialTranslations.UniqueSitesBelowSingleInternal | src/casm/mapping/SearchData.cc:114-116 | with one internal translation every site allowing the type is kept |
| TrialTranslations.UniqueSitesBelowInequivalent | src/casm/mapping/SearchData.cc:131-138 | with several internal translations, no kept translation moved by an internal translation is lattice-equivalent to an earlier kept one |
| TrialTranslations.UniqueSitesBelowComplete | src/casm/mapping/SearchData.cc:226-229 | every site allowing the type that is dropped, moved by some internal translation, is lattice-equivalent to a kept translation |
| TrialTranslations.AnyEquivalentSnoc | src/casm/mapping/SearchData.cc:226-229 | an equivalent already found stays found after a push_back onto the unique list |
| TrialTranslations.TrialTranslationsSpec | src/casm/mapping/SearchData.cc:174-233 | the functional model of make_trial_translations: at most one trial translation per prim site |
| TrialTranslations.TrialTranslationsEmpty | src/casm/mapping/SearchData.cc:189-204 | the result is empty exactly when there are no atoms or some atom's type is allowed on no prim site |
| TrialTranslations.TrialTranslationsAlign | src/casm/mapping/SearchData.cc:213-230 | every translation carries the chosen atom exactly onto a prim site allowing its type; there are at most as many as that atom's compatible sites |
| TrialTranslations.TrialTranslationsOrdered | src/casm/mapping/SearchData.cc:213-230 | the translations come in increasing order of target site |
| TrialTranslations.TrialTranslationsSingleInternal | src/casm/mapping/SearchData.cc:114-116 | with one internal translation there is exactly one translation per compatible site |
| TrialTranslations.TrialTranslationsUnique | src/casm/mapping/SearchData.cc:131-138 | no returned translation moved by an internal translation is lattice-equivalent to an earlier one |
| TrialTranslations.TrialTranslationsComplete | src/casm/mapping/SearchData.cc:213-230 | every site compatible with the chosen atom is reached by a returned translation, directly or up to an internal translation and a lattice vector |
| TrialTranslations.TwoSiteExample | src/casm/mapping/SearchData.cc:189-230 | sites {"A"}, {"A","Va"} with an "A" and a "Va" atom on them: the single trial translation is zero |
| TrialTranslations.CountAllowedSites | src/casm/mapping/SearchData.cc:194-201 | the counting loop computes N_allowed_sites for the type |
| TrialTranslations.ChooseBestAtom | src/casm/mapping/SearchData.cc:189-209 | the first loop reports every atom placeable exactly when each type is allowed on some prim site, and then picks BestAtomIndex |
| TrialTranslations.CollectUniqueTranslations | src/casm/mapping/SearchData.cc:213-230 | the collecting loop returns the unique translations to the compatible sites |
| TrialTranslations.MakeTrialTranslations | src/casm/mapping/SearchData.cc:174-233 | the result equals TrialTranslationsSpec, with the internal translations made from the factor group and the lattice tolerance |
| Supercell.MakeSiteCoordinateCart | src/casm/mapping/SearchData.cc:14-22 | one column per basis site, equal to that site's Cartesian position |
| Supercell.MakeSupercellSiteCoordinateCart | src/casm/mapping/SearchData.cc:26-41 | total_sites() columns, column l = prim_col(b(l)) + L * ijk(l) |
| Supercell.MakeSupercellAllowedAtomTypes | src/casm/mapping/SearchData.cc:44-55 | total_sites() entries, entry l = prim allowed types of sublattice b(l) |
| Supercell.PeriodicImages | src/casm/mapping/SearchData.cc:32-38 | sites on the same sublattice differ by the prim lattice vector L * (ijk - ijk') |
| Supercell.OriginCellSite | src/casm/mapping/SearchData.cc:32-38 | a site in unit cell (0,0,0) sits exactly on its prim site |
| SearchData.NormalizeFactorGroup | src/casm/mapping/SearchData.cc:398-401 | never empty; an empty group becomes [identity]; a non-empty one is kept |
| SearchData.MakeStructureSearchData | src/casm/mapping/SearchData.cc:390-407 | fails with the type-count error exactly when atom_type.size() != cols(); otherwise the fields, with the factor group normalized |
| SearchData.MakePrimSearchData | src/casm/mapping/SearchData.cc:423-456 | fails exactly when some site has a multi-atom occupant; otherwise lattice, site coordinates, allowed names, vacancy flag, normalized factor group, and modes exactly when requested |
| SearchData.AllowedTypesAreOccupantNames | src/casm/mapping/SearchData.cc:432 | a type is allowed on a prim site exactly when one of its occupants has that name |
| SearchData.MakeLatticeMappingSearchData | src/casm/mapping/SearchData.cc:467-492 | rounded T, superlattice, converter, F^-1 applied to each atom, and supercell tables lifted from the prim through the converter |
| SearchData.SupercellSitesPeriodic | src/casm/mapping/SearchData.cc:26-55 | in valid lattice-mapping data, same-sublattice supercell sites allow the same types and differ by a prim lattice vector |
| SearchData.MakeTrialTranslations | src/casm/mapping/SearchData.cc:513-522 | the wrapper passes the supercell-frame atoms and the prim data to the core routine |
| SearchData.MakeAtomMappingSearchData | src/casm/mapping/SearchData.cc:576-590 | fails exactly when there are more atoms than supercell sites; otherwise the displacement field and an N_site x N_site cost matrix of CostEntry values (the cost builder's checks always pass) |

## Left out

- `fast_pbc_displacement_cart` and `robust_pbc_displacement_cart`
  (SearchData.cc:63-91): floating-point minimum-image geometry with `lround`
  and an iterate-until-tolerance loop. It is the parameter `PbcDisplacement`.
  No termination, minimality or round-trip property is claimed for it.
- `lround(T * N)`, `make_superlattice`, `UnitCellCoordIndexConverter` and
  `deformation_gradient.inverse()`: float and integer linear algebra from
  xtal. Their results come from `LatticeTools`.
- `xtal::is_vacancy`, `is_integer`, `make_internal_translations`,
  `max_possible_vacancies`, `generate_invariant_shuffle_modes` and
  `make_permutation_representation`: their definitions are not part of this
  model, so they are parameters.
- `xtal::allowed_molecule_names` is modelled as the occupant names of each
  site, in order. Its definition is not part of this model.
- `shared_ptr` sharing and lifetimes: the records hold plain values.
- Floating-point rounding: all arithmetic is exact `real`.
- The assignment solver, the AtomMapping result records, and the Python
  bindings: they contain no logic of this stage.
- CostMatrix.MakeCostMatrix: the source writes column j < N_atom of an
  N_site-wide matrix without checking N_atom <= N_site. The precondition
  excludes exactly the inputs that pass both size checks and would then write
  out of bounds (N_site > 0 and N_atom > N_site). Through
  `AtomMappingSearchData` this case cannot arise.
- TrialTranslations.MakeTrialTranslations: the source reads
  `atom_type[best_atom_index]` even with no atoms when there are prim sites.
  The precondition excludes exactly that case.
- The cost matrix is allocated and filled in place; the model states that it
  is freshly allocated, so no other object shares it.
